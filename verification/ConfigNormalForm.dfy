/** What normalising the keys of a tree keeps (crates/containerproxy/src/config/loader.rs). */
module ConfigNormalForm {
  import opened Wrappers
  import opened ConfigPaths
  import opened ConfigTree
  import opened ConfigLayers
  import opened ConfigSchema
  import opened ConfigNormalize

  predicate IsContext(schema: Schema, path: string) {
    IsWellFormed(schema) && AreGoodNames(Names(path))
  }

  /** The entries when the first `done` keys have been rewritten. */
  ghost predicate IsPartly(schema: Schema, path: string, entries: seq<Entry>, done: nat, state: seq<Entry>)
    requires done <= |entries|
  {
    && DistinctNames(state) && |state| == |entries|
    && (forall j | 0 <= j < done :: Renamed(schema, path, entries[j]) in state)
    && (forall j | done <= j < |entries| :: entries[j] in state)
    && (forall entry | entry in state :: ComesFrom(schema, path, entries, done, entry))
  }

  lemma {:induction false} NormalizeRest(
      schema: Schema, path: string, entries: seq<Entry>, done: nat, state: seq<Entry>, height: nat)
    requires IsContext(schema, path) && HaveGoodKeys(entries) && done <= |entries|
    requires IsPartly(schema, path, entries, done, state) && EntriesHeight(state) <= height
    ensures IsPartly(schema, path, entries, |entries|, NormalizeKeys(schema, state, entries[done..], path, height))
    decreases |entries| - done
  {
    hide IsGoodKey, Renamed, Canonical, NormalizeKey, IsTidy, IsWellFormed, Target, Names;
    if done < |entries| {
      var entry := entries[done];
      assert entries[done..][1..] == entries[done + 1..];
      RenamedName(schema, path, entry);
      NormalizeOne(schema, state, entry, path, height);
      var next := NormalizeKey(schema, state, entry.key, path, height);
      OneMorePart(schema, path, entries, done, state, next);
      NormalizeRest(schema, path, entries, done + 1, next, height);
    }
  }

  lemma RenamedName(schema: Schema, path: string, entry: Entry)
    requires IsContext(schema, path) && IsGoodKey(entry.key)
    ensures SameName(Renamed(schema, path, entry).key, entry.key) && IsGoodKey(Renamed(schema, path, entry).key)
    ensures Renamed(schema, path, entry).key == Target(schema, path, entry.key)
  {
    hide IsGoodKey, Target, Canonical;
    TargetIsSameName(schema, path, entry.key);
  }

  lemma OneMorePart(
      schema: Schema, path: string, entries: seq<Entry>, done: nat, state: seq<Entry>, next: seq<Entry>)
    requires IsContext(schema, path) && HaveGoodKeys(entries) && done < |entries|
    requires IsPartly(schema, path, entries, done, state)
    requires DistinctNames(next) && |next| == |state| && Renamed(schema, path, entries[done]) in next
    requires forall other | other in state && other != entries[done] :: other in next
    requires forall other | other in next ::
      other == Renamed(schema, path, entries[done]) || (other in state && other != entries[done])
    ensures IsPartly(schema, path, entries, done + 1, next)
  {
    hide IsGoodKey, Renamed, Canonical, DistinctNames, IsTidy, IsContext, ComesFrom;
    forall j | 0 <= j < done
      ensures Renamed(schema, path, entries[j]) in next
    {
      RenamedName(schema, path, entries[j]);
      NamesDiffer(entries, j, done);
    }
    forall j | done + 1 <= j < |entries|
      ensures entries[j] in next
    {
      NamesDiffer(entries, done, j);
    }
    forall other | other in next
      ensures ComesFrom(schema, path, entries, done + 1, other)
    {
      OneMoreOrigin(schema, path, entries, done, other);
    }
  }

  ghost predicate ComesFrom(schema: Schema, path: string, entries: seq<Entry>, done: nat, other: Entry)
    requires done <= |entries|
  {
    || (exists j | 0 <= j < done :: other == Renamed(schema, path, entries[j]))
    || (exists j | done <= j < |entries| :: other == entries[j])
  }

  lemma OneMoreOrigin(schema: Schema, path: string, entries: seq<Entry>, done: nat, other: Entry)
    requires done < |entries|
    requires other == Renamed(schema, path, entries[done])
          || (other != entries[done] && ComesFrom(schema, path, entries, done, other))
    ensures ComesFrom(schema, path, entries, done + 1, other)
  {
    hide Renamed;
  }

  lemma NamesDiffer(entries: seq<Entry>, i: nat, j: nat)
    requires DistinctNames(entries) && i < j < |entries|
    ensures !SameName(entries[i].key, entries[j].key) && entries[i] != entries[j]
  {
  }

  /** Up to their order, the entries of a map with good keys are renamed one by one. */
  lemma EntriesAreRenamed(schema: Schema, path: string, entries: seq<Entry>)
    requires IsContext(schema, path) && HaveGoodKeys(entries)
    ensures var after := Normalize(schema, Object(entries), path).entries;
      && DistinctNames(after) && |after| == |entries|
      && (forall entry | entry in entries :: Renamed(schema, path, entry) in after)
      && (forall other | other in after :: exists entry :: entry in entries && other == Renamed(schema, path, entry))
  {
    hide IsGoodKey, Renamed, Canonical, DistinctNames, IsTidy, IsContext, NormalizeKeys;
    assert entries[0..] == entries;
    NormalizeRest(schema, path, entries, 0, entries, EntriesHeight(entries));
    var after := Normalize(schema, Object(entries), path).entries;
    forall other | other in after
      ensures exists entry :: entry in entries && other == Renamed(schema, path, entry)
    {
      var j :| 0 <= j < |entries| && other == Renamed(schema, path, entries[j]);
      assert entries[j] in entries;
    }
  }

  /** A key finds the normalised value of what it found before. */
  lemma NormalizedChild(schema: Schema, path: string, entries: seq<Entry>, key: string)
    requires IsContext(schema, path) && HaveGoodKeys(entries)
    ensures var i := RelaxedIndex(entries, key);
      Child(Normalize(schema, Object(entries), path).entries, key)
        == if i == |entries| then None
           else Some(NormalizeChild(schema, entries[i].value, path, entries[i].key))
  {
    hide IsGoodKey, IsTidy, IsContext, Normalize, Canonical, Target, NormalizeChild;
    NormalizedIsMap(schema, entries, path);
    EntriesAreRenamed(schema, path, entries);
    var after := Normalize(schema, Object(entries), path).entries;
    var i := RelaxedIndex(entries, key);
    if i < |entries| {
      assert entries[i] in entries;
      RenamedName(schema, path, entries[i]);
      var j :| 0 <= j < |after| && after[j] == Renamed(schema, path, entries[i]);
      OnlyIndex(after, j, key);
    } else {
      forall j | 0 <= j < |after|
        ensures !SameName(after[j].key, key)
      {
        assert after[j] in after;
        var entry :| entry in entries && after[j] == Renamed(schema, path, entry);
        RenamedName(schema, path, entry);
      }
      NoSuchChild(after, key);
    }
  }

  lemma ChildContext(schema: Schema, path: string, key: string)
    requires IsContext(schema, path) && IsGoodKey(key)
    ensures IsContext(schema, ChildPath(path, Target(schema, path, key)))
  {
    hide IsGoodKey, Target, Canonical, Names, ChildPath;
    TargetIsSameName(schema, path, key);
  }

  lemma MarkedContext(schema: Schema, path: string)
    requires IsContext(schema, path)
    ensures IsContext(schema, path + "[]")
  {
    hide Names;
    NamesOfMarked(path);
  }

  /** A tidy tree stays tidy. */
  lemma {:induction false} NormalizedIsTidy(schema: Schema, value: Value, path: string)
    requires IsContext(schema, path) && IsTidy(schema, value, path)
    ensures IsTidy(schema, Normalize(schema, value, path), path)
    decreases value
  {
    hide IsGoodKey, Canonical, NormalizeKeys, Target, IsContext, IsFreeForm, DistinctNames;
    match value
    case Object(entries) =>
      NormalizedIsMap(schema, entries, path);
      EntriesAreRenamed(schema, path, entries);
      var after := Normalize(schema, value, path).entries;
      forall i | 0 <= i < |after|
        ensures IsGoodKey(after[i].key)
        ensures IsFreeForm(schema, path, after[i].key)
             || IsTidy(schema, after[i].value, ChildPath(path, Target(schema, path, after[i].key)))
      {
        assert after[i] in after;
        var entry :| entry in entries && after[i] == Renamed(schema, path, entry);
        RenamedName(schema, path, entry);
        ChildContext(schema, path, entry.key);
        TargetIsStable(schema, path, entry.key);
        if !IsFreeForm(schema, path, entry.key) {
          NormalizedIsTidy(schema, entry.value, ChildPath(path, Target(schema, path, entry.key)));
        }
      }
    case Array(items) =>
      MarkedContext(schema, path);
      forall i | 0 <= i < |items|
        ensures IsTidy(schema, Normalize(schema, items[i], path + "[]"), path + "[]")
      {
        NormalizedIsTidy(schema, items[i], path + "[]");
      }
    case _ =>
  }

  /** The maps on the way down have good keys, as far as the way is outside free-form maps. */
  predicate IsTidyAlong(schema: Schema, value: Value, path: string, at: seq<Segment>)
    decreases |at|
  {
    match value
    case Object(entries) =>
      && HaveGoodKeys(entries)
      && (at != [] && at[0].Key? && RelaxedIndex(entries, at[0].name) < |entries| ==>
            var entry := entries[RelaxedIndex(entries, at[0].name)];
            IsFreeForm(schema, path, entry.key)
            || IsTidyAlong(schema, entry.value, ChildPath(path, Target(schema, path, entry.key)), at[1..]))
    case Array(items) =>
      at != [] && at[0].Index? && at[0].index < |items| ==>
        IsTidyAlong(schema, items[at[0].index], path + "[]", at[1..])
    case _ => true
  }

  /** A tidy tree is tidy along every way. */
  lemma {:induction false} TidyEverywhere(schema: Schema, value: Value, path: string, at: seq<Segment>)
    requires IsTidy(schema, value, path)
    ensures IsTidyAlong(schema, value, path, at)
    decreases |at|
  {
    hide HaveGoodKeys, IsFreeForm, Target, ChildPath;
    if at != [] {
      match value
      case Object(entries) =>
        if at[0].Key? && RelaxedIndex(entries, at[0].name) < |entries| {
          var entry := entries[RelaxedIndex(entries, at[0].name)];
          if !IsFreeForm(schema, path, entry.key) {
            TidyEverywhere(schema, entry.value, ChildPath(path, Target(schema, path, entry.key)), at[1..]);
          }
        }
      case Array(items) =>
        if at[0].Index? && at[0].index < |items| {
          TidyEverywhere(schema, items[at[0].index], path + "[]", at[1..]);
        }
      case _ =>
    }
  }

  /** Found in both or in neither: the same scalar, or containers of the same kind and size. */
  predicate Alike(a: Option<Value>, b: Option<Value>) {
    if a.None? || b.None? then a == b
    else if a.value.Object? && b.value.Object? then |a.value.entries| == |b.value.entries|
    else if a.value.Array? && b.value.Array? then |a.value.items| == |b.value.items|
    else a == b
  }

  /** Every relaxed lookup finds what it found before. */
  lemma {:induction false} LookupsAreKept(schema: Schema, value: Value, path: string, at: seq<Segment>)
    requires IsContext(schema, path) && IsTidyAlong(schema, value, path, at)
    ensures Alike(GetAt(Normalize(schema, value, path), at), GetAt(value, at))
    decreases value, 1
  {
    hide IsGoodKey, Canonical, NormalizeKeys, Target, IsContext, IsFreeForm, Child, Alike;
    match value
    case Object(entries) =>
      NormalizedIsMap(schema, entries, path);
      if at == [] {
        MapsAreAlike(schema, path, entries);
      } else if at[0].Key? {
        LookupInMap(schema, entries, path, at);
      } else {
        AlikeItself(None);
      }
    case Array(items) =>
      if at != [] && at[0].Index? && at[0].index < |items| {
        MarkedContext(schema, path);
        LookupsAreKept(schema, items[at[0].index], path + "[]", at[1..]);
      } else {
        ArraysAreAlike(schema, path, items);
        AlikeItself(None);
      }
    case _ =>
      AlikeItself(GetAt(value, at));
  }

  lemma MapsAreAlike(schema: Schema, path: string, entries: seq<Entry>)
    requires IsContext(schema, path) && HaveGoodKeys(entries)
    ensures Alike(Some(Normalize(schema, Object(entries), path)), Some(Object(entries)))
  {
    hide HaveGoodKeys, Canonical, NormalizeKeys, IsContext;
    EntriesAreRenamed(schema, path, entries);
  }

  lemma ArraysAreAlike(schema: Schema, path: string, items: seq<Value>)
    ensures Alike(Some(Normalize(schema, Array(items), path)), Some(Array(items)))
  {
  }

  lemma {:induction false} LookupInMap(schema: Schema, entries: seq<Entry>, path: string, at: seq<Segment>)
    requires IsContext(schema, path) && IsTidyAlong(schema, Object(entries), path, at) && at != [] && at[0].Key?
    ensures var normalized := Normalize(schema, Object(entries), path);
      Alike(GetAt(normalized, at), GetAt(Object(entries), at))
    decreases Object(entries), 0
  {
    hide IsGoodKey, Canonical, Normalize, Target, IsContext, IsFreeForm, Child, Alike;
    NormalizedIsMap(schema, entries, path);
    NormalizedChild(schema, path, entries, at[0].name);
    ChildAt(entries, at[0].name);
    AlikeItself(None);
    var i := RelaxedIndex(entries, at[0].name);
    if i < |entries| && IsFreeForm(schema, path, entries[i].key) {
      AlikeItself(GetAt(entries[i].value, at[1..]));
    } else if i < |entries| {
      ChildContext(schema, path, entries[i].key);
      LookupsAreKept(schema, entries[i].value, ChildPath(path, Target(schema, path, entries[i].key)), at[1..]);
    }
  }

  lemma AlikeItself(a: Option<Value>)
    ensures Alike(a, a)
  {
  }

  /** The way down a tree leads into a free-form map. */
  predicate EntersFreeForm(schema: Schema, value: Value, path: string, at: seq<Segment>)
    decreases |at|
  {
    at != [] &&
    match at[0]
    case Key(name) =>
      && value.Object? && RelaxedIndex(value.entries, name) < |value.entries|
      && var entry := value.entries[RelaxedIndex(value.entries, name)];
      (IsFreeForm(schema, path, entry.key)
        || EntersFreeForm(schema, entry.value, ChildPath(path, Target(schema, path, entry.key)), at[1..]))
    case Index(index) =>
      value.Array? && index < |value.items| && EntersFreeForm(schema, value.items[index], path + "[]", at[1..])
  }

  /** Free-form maps are left exactly as they are. */
  lemma {:induction false} FreeFormIsKept(schema: Schema, value: Value, path: string, at: seq<Segment>)
    requires IsContext(schema, path) && IsTidyAlong(schema, value, path, at) && EntersFreeForm(schema, value, path, at)
    ensures GetAt(Normalize(schema, value, path), at) == GetAt(value, at)
    decreases value
  {
    hide IsGoodKey, Canonical, NormalizeKeys, Target, IsContext, IsFreeForm, Child;
    match at[0]
    case Key(name) =>
      var i := RelaxedIndex(value.entries, name);
      var entry := value.entries[i];
      NormalizedChild(schema, path, value.entries, name);
      ChildAt(value.entries, name);
      ChildContext(schema, path, entry.key);
      if !IsFreeForm(schema, path, entry.key) {
        FreeFormIsKept(schema, entry.value, ChildPath(path, Target(schema, path, entry.key)), at[1..]);
      }
    case Index(index) =>
      MarkedContext(schema, path);
      FreeFormIsKept(schema, value.items[index], path + "[]", at[1..]);
  }

  /** Equal but for the order of the entries of maps. */
  ghost predicate Same(a: Value, b: Value)
    decreases a
  {
    match a
    case Object(entries) =>
      && b.Object? && |entries| == |b.entries|
      && forall i | 0 <= i < |entries| :: IsAmong(entries[i], b.entries)
    case Array(items) =>
      && b.Array? && |items| == |b.items|
      && forall i | 0 <= i < |items| :: Same(items[i], b.items[i])
    case _ => a == b
  }

  ghost predicate IsAmong(entry: Entry, others: seq<Entry>)
    decreases entry
  {
    exists j | 0 <= j < |others| :: others[j].key == entry.key && Same(entry.value, others[j].value)
  }

  lemma {:induction false} SameAsItself(value: Value)
    ensures Same(value, value)
    decreases value
  {
    match value
    case Object(entries) =>
      forall i | 0 <= i < |entries|
        ensures IsAmong(entries[i], entries)
      {
        SameAsItself(entries[i].value);
      }
    case Array(items) =>
      forall i | 0 <= i < |items|
        ensures Same(items[i], items[i])
      {
        SameAsItself(items[i]);
      }
    case _ =>
  }

  /** The spelling of a name does not depend on how it is spelled. */
  lemma TargetIsStable(schema: Schema, path: string, key: string)
    requires IsContext(schema, path) && IsGoodKey(key)
    ensures var target := Target(schema, path, key);
      && Target(schema, path, target) == target
      && IsFreeForm(schema, path, target) == IsFreeForm(schema, path, key)
  {
    hide IsGoodKey, Canonical, Names, SpellingOf, FindCanonical, ChildPath, Join, IsWellFormed;
    TargetIsSameName(schema, path, key);
    var target := Target(schema, path, key);
    assert CanonicalPath(ChildPath(path, target)) == CanonicalPath(ChildPath(path, key));
  }

  /** Every key that the schema knows is spelled as the schema spells it, outside free-form maps. */
  predicate IsSpelled(schema: Schema, value: Value, path: string)
    decreases value
  {
    match value
    case Object(entries) =>
      forall i | 0 <= i < |entries| ::
        var child := ChildPath(path, entries[i].key);
        && (CanonicalSegment(schema, child).Some? ==> CanonicalSegment(schema, child) == Some(entries[i].key))
        && (IsFreeForm(schema, path, entries[i].key) || IsSpelled(schema, entries[i].value, child))
    case Array(items) => forall i | 0 <= i < |items| :: IsSpelled(schema, items[i], path + "[]")
    case _ => true
  }

  /** Afterwards all keys are. */
  lemma {:induction false} KeysAreSpelled(schema: Schema, value: Value, path: string)
    requires IsContext(schema, path) && IsTidy(schema, value, path)
    ensures IsSpelled(schema, Normalize(schema, value, path), path)
    decreases value
  {
    hide IsGoodKey, Canonical, NormalizeKeys, IsContext, IsFreeForm, CanonicalSegment, DistinctNames, ChildPath;
    match value
    case Object(entries) =>
      NormalizedIsMap(schema, entries, path);
      EntriesAreRenamed(schema, path, entries);
      var after := Normalize(schema, value, path).entries;
      forall i | 0 <= i < |after|
        ensures Target(schema, path, after[i].key) == after[i].key
        ensures IsFreeForm(schema, path, after[i].key)
            || IsSpelled(schema, after[i].value, ChildPath(path, after[i].key))
      {
        assert after[i] in after;
        var entry :| entry in entries && after[i] == Renamed(schema, path, entry);
        TargetIsStable(schema, path, entry.key);
        ChildContext(schema, path, entry.key);
        if !IsFreeForm(schema, path, entry.key) {
          KeysAreSpelled(schema, entry.value, ChildPath(path, Target(schema, path, entry.key)));
        }
      }
    case Array(items) =>
      MarkedContext(schema, path);
      forall i | 0 <= i < |items|
        ensures IsSpelled(schema, Normalize(schema, items[i], path + "[]"), path + "[]")
      {
        KeysAreSpelled(schema, items[i], path + "[]");
      }
    case _ =>
  }

  /** Normalising twice is normalising once, up to the order of entries. */
  lemma {:induction false} NormalizedTwice(schema: Schema, value: Value, path: string)
    requires IsContext(schema, path) && IsTidy(schema, value, path)
    ensures Same(Normalize(schema, Normalize(schema, value, path), path), Normalize(schema, value, path))
    decreases value, 1
  {
    hide IsGoodKey, Canonical, NormalizeKeys, Target, IsContext, IsFreeForm, IsTidy;
    match value
    case Object(entries) =>
      NormalizedMapTwice(schema, entries, path);
    case Array(items) =>
      MarkedContext(schema, path);
      TidyItems(schema, items, path);
      forall i | 0 <= i < |items|
        ensures Same(Normalize(schema, Normalize(schema, items[i], path + "[]"), path + "[]"),
                     Normalize(schema, items[i], path + "[]"))
      {
        NormalizedTwice(schema, items[i], path + "[]");
      }
    case _ =>
  }

  lemma TidyItems(schema: Schema, items: seq<Value>, path: string)
    requires IsTidy(schema, Array(items), path)
    ensures forall i | 0 <= i < |items| :: IsTidy(schema, items[i], path + "[]")
  {
  }

  lemma {:induction false} NormalizedMapTwice(schema: Schema, entries: seq<Entry>, path: string)
    requires IsContext(schema, path) && IsTidy(schema, Object(entries), path)
    ensures var once := Normalize(schema, Object(entries), path);
      Same(Normalize(schema, once, path), once)
    decreases Object(entries), 0
  {
    hide IsGoodKey, Canonical, Normalize, Target, IsContext, IsFreeForm, DistinctNames, NormalizeChild;
    var once := Normalize(schema, Object(entries), path);
    NormalizedIsTidy(schema, Object(entries), path);
    NormalizedIsMap(schema, entries, path);
    assert HaveGoodKeys(once.entries);
    NormalizedIsMap(schema, once.entries, path);
    EntriesAreRenamed(schema, path, entries);
    EntriesAreRenamed(schema, path, once.entries);
    var twice := Normalize(schema, once, path);
    forall i | 0 <= i < |twice.entries|
      ensures IsAmong(twice.entries[i], once.entries)
    {
      assert twice.entries[i] in twice.entries;
      var other :| other in once.entries && twice.entries[i] == Renamed(schema, path, other);
      var entry :| entry in entries && other == Renamed(schema, path, entry);
      assert entry.value < Object(entries) by {
        var k :| 0 <= k < |entries| && entries[k] == entry;
      }
      var deeper := ChildPath(path, Target(schema, path, entry.key));
      ChildContext(schema, path, entry.key);
      if !IsFreeForm(schema, path, entry.key) {
        assert IsTidy(schema, entry.value, deeper);
        NormalizedTwice(schema, entry.value, deeper);
      }
      RenamedTwice(schema, path, entry);
      var j :| 0 <= j < |once.entries| && once.entries[j] == other;
      assert IsAmong(twice.entries[i], once.entries);
    }
  }

  lemma NormalizedIsMap(schema: Schema, entries: seq<Entry>, path: string)
    ensures Normalize(schema, Object(entries), path).Object?
  {
  }

  lemma RenamedTwice(schema: Schema, path: string, entry: Entry)
    requires IsContext(schema, path) && IsGoodKey(entry.key)
    requires var deeper := ChildPath(path, Target(schema, path, entry.key));
      IsFreeForm(schema, path, entry.key)
      || Same(Normalize(schema, Normalize(schema, entry.value, deeper), deeper), Normalize(schema, entry.value, deeper))
    ensures var other := Renamed(schema, path, entry);
      var again := Renamed(schema, path, other);
      again.key == other.key && Same(again.value, other.value)
  {
    hide IsGoodKey, Canonical, Normalize, Target, IsContext, IsFreeForm, Same;
    TargetIsStable(schema, path, entry.key);
    SameAsItself(entry.value);
  }
}
