/** Resolving the placeholders of a whole tree (crates/containerproxy/src/config/loader.rs). */
module ConfigPlaceholders {
  import opened Wrappers
  import opened TextSearch
  import opened ConfigPaths
  import opened ConfigTree
  import opened ConfigLayers
  import opened ConfigFlatten
  import opened ConfigPlaces
  import opened Placeholders

  /** A property as text; `json` writes out numbers, maps and arrays. */
  function GetString(root: Value, path: string, json: Value -> string): Option<string> {
    match GetAt(root, Segments(path))
    case None => None
    case Some(Null) => None
    case Some(Text(text)) => Some(text)
    case Some(Bool(b)) => Some(if b then "true" else "false")
    case Some(other) => Some(json(other))
  }

  function SourcesOf(root: Value, env: map<string, string>, json: Value -> string): Sources {
    Sources(env, path => GetString(root, path, json))
  }

  function Resolver(root: Value, env: map<string, string>, json: Value -> string): string -> Option<string> {
    text => Resolve(SourcesOf(root, env, json), text, 0)
  }

  /** What becomes of a flattened scalar; None is an error. */
  function Update(snapshot: Value, resolver: string -> Option<string>, leaf: Setting): Option<seq<Setting>> {
    var raw := GetAt(snapshot, Segments(leaf.path));
    if !leaf.value.Text? || raw.None? || !raw.value.Text? || Find(raw.value.text, "${").None? then Some([]) else
    var resolved := resolver(raw.value.text);
    if resolved.None? then None else Some([Setting(leaf.path, Text(resolved.value))])
  }

  function UpdateAll(snapshot: Value, resolver: string -> Option<string>, tree: Value,
    leaves: seq<Setting>): Option<Value> {
    if leaves == [] then Some(tree) else
    var before := UpdateAll(snapshot, resolver, tree, leaves[..|leaves| - 1]);
    var update := Update(snapshot, resolver, leaves[|leaves| - 1]);
    if before.None? || update.None? then None else Some(Apply(before.value, update.value))
  }

  method ResolvePlaceholders(target: Value, env: map<string, string>, json: Value -> string) returns (r: Option<Value>)
    ensures r == UpdateAll(target, Resolver(target, env, json), target, FlattenFrom(target, ""))
  {
    hide FlattenFrom, GetAt, SetAt, Segments, Resolve, GetString;
    var sources := SourcesOf(target, env, json);
    var resolver := Resolver(target, env, json);
    var leaves := Flatten(target);
    var tree := target;
    for i := 0 to |leaves|
      invariant UpdateAll(target, resolver, target, leaves[..i]) == Some(tree)
    {
      var path := leaves[i].path;
      assert leaves[..i + 1][..i] == leaves[..i];
      if !leaves[i].value.Text? {
        continue;
      }
      var raw := Get(target, path);
      if raw.None? || !raw.value.Text? || Find(raw.value.text, "${").None? {
        continue;
      }
      var resolved := ResolvePlaceholdersIn(sources, raw.value.text, 0);
      if resolved.None? {
        FailureLasts(target, resolver, target, leaves, i + 1);
        return None;
      }
      OneSetting(tree, Setting(path, Text(resolved.value)));
      tree := SetAt(tree, Segments(path), Text(resolved.value));
    }
    assert leaves[..|leaves|] == leaves;
    return Some(tree);
  }

  lemma {:induction false} FailureLasts(
      snapshot: Value, resolver: string -> Option<string>, tree: Value, leaves: seq<Setting>, i: nat)
    requires i <= |leaves| && UpdateAll(snapshot, resolver, tree, leaves[..i]).None?
    ensures UpdateAll(snapshot, resolver, tree, leaves).None?
    decreases |leaves|
  {
    hide Update, Apply;
    if i == |leaves| {
      assert leaves[..i] == leaves;
    } else {
      assert leaves[..|leaves| - 1][..i] == leaves[..i];
      FailureLasts(snapshot, resolver, tree, leaves[..|leaves| - 1], i);
    }
  }

  /** The tree with the texts at these places replaced by what they resolve to. */
  function Patch(value: Value, here: Place, chosen: set<Place>, resolver: string -> Option<string>): Value
    decreases value
  {
    match value
    case Text(text) =>
      if here in chosen && resolver(text).Some? then Text(resolver(text).value) else value
    case Object(entries) =>
      Object(seq(|entries|, i requires 0 <= i < |entries| =>
        Entry(entries[i].key, Patch(entries[i].value, here + [i], chosen, resolver))))
    case Array(items) =>
      Array(seq(|items|, i requires 0 <= i < |items| => Patch(items[i], here + [i], chosen, resolver)))
    case _ => value
  }

  lemma PatchedShape(value: Value, here: Place, chosen: set<Place>, resolver: string -> Option<string>)
    ensures var patched := Patch(value, here, chosen, resolver);
      && Size(patched) == Size(value) && patched.Object? == value.Object? && patched.Array? == value.Array?
      && (forall i | 0 <= i < Size(value) :: Nth(patched, i) == Patch(Nth(value, i), here + [i], chosen, resolver))
      && (forall segment :: Choose(patched, segment) == Choose(value, segment))
  {
    hide RelaxedIndex;
    if value.Object? {
      forall key: string
        ensures RelaxedIndex(Patch(value, here, chosen, resolver).entries, key) == RelaxedIndex(value.entries, key)
      {
        SameKeys(Patch(value, here, chosen, resolver).entries, value.entries, key);
      }
    }
  }

  /** Paths lead to the same places as before. */
  lemma {:induction false} PatchKeepsPlaces(
      value: Value, here: Place, chosen: set<Place>, resolver: string -> Option<string>, path: seq<Segment>)
    ensures Locate(Patch(value, here, chosen, resolver), path) == Locate(value, path)
    decreases |path|
  {
    hide Patch, Choose;
    if path != [] {
      PatchedShape(value, here, chosen, resolver);
      if Choose(value, path[0]).Some? {
        var i := Choose(value, path[0]).value;
        ChooseIsBelow(value, path[0]);
        PatchKeepsPlaces(Nth(value, i), here + [i], chosen, resolver, path[1..]);
      }
    }
  }

  lemma ChooseIsBelow(value: Value, segment: Segment)
    ensures Choose(value, segment).Some? ==> Choose(value, segment).value < Size(value)
  {
  }

  /** At every place there is the patched value of that place. */
  lemma {:induction false} PatchedAt(
      value: Value, here: Place, chosen: set<Place>, resolver: string -> Option<string>, place: Place)
    ensures At(Patch(value, here, chosen, resolver), place)
         == match At(value, place) case None => None case Some(v) => Some(Patch(v, here + place, chosen, resolver))
    decreases |place|
  {
    hide Patch, Choose;
    PatchedShape(value, here, chosen, resolver);
    if place == [] {
      assert here + [] == here;
    } else if place[0] < Size(value) {
      PatchedAt(Nth(value, place[0]), here + [place[0]], chosen, resolver, place[1..]);
      assert here + [place[0]] + place[1..] == here + place;
    }
  }

  /** Values with a place that is not below them have nothing to do with it. */
  lemma {:induction false} PatchElsewhere(
      value: Value, here: Place, chosen: set<Place>, resolver: string -> Option<string>, other: Place)
    requires !(here <= other)
    ensures Patch(value, here, chosen + {other}, resolver) == Patch(value, here, chosen, resolver)
    decreases value
  {
    match value
    case Object(entries) =>
      forall i | 0 <= i < |entries|
        ensures Patch(entries[i].value, here + [i], chosen + {other}, resolver)
             == Patch(entries[i].value, here + [i], chosen, resolver)
      {
        NotBelow(here, i, other);
        PatchElsewhere(entries[i].value, here + [i], chosen, resolver, other);
      }
    case Array(items) =>
      forall i | 0 <= i < |items|
        ensures Patch(items[i], here + [i], chosen + {other}, resolver) == Patch(items[i], here + [i], chosen, resolver)
      {
        NotBelow(here, i, other);
        PatchElsewhere(items[i], here + [i], chosen, resolver, other);
      }
    case _ =>
  }

  lemma NotBelow(here: Place, i: nat, other: Place)
    ensures here + [i] <= other ==> here <= other && |other| > |here| && other[|here|] == i
  {
    if here + [i] <= other {
      assert other[..|here| + 1] == here + [i];
      assert other[..|here|] == here && (here + [i])[|here|] == i;
    }
  }

  /** Replacing one more text is patching one more place. */
  lemma {:induction false} PatchOneMore(
      value: Value, here: Place, chosen: set<Place>, resolver: string -> Option<string>, place: Place)
    requires At(value, place).Some? && At(value, place).value.Text? && resolver(At(value, place).value.text).Some?
    requires At(Patch(value, here, chosen, resolver), place).Some?
    ensures Replace(Patch(value, here, chosen, resolver), place, Text(resolver(At(value, place).value.text).value))
         == Patch(value, here, chosen + {here + place}, resolver)
    decreases |place|
  {
    if place == [] {
      assert here + [] == here;
    } else {
      var i := place[0];
      PatchedShape(value, here, chosen, resolver);
      PatchOneMore(Nth(value, i), here + [i], chosen, resolver, place[1..]);
      assert here + [i] + place[1..] == here + place;
      forall j | 0 <= j < Size(value) && j != i
        ensures Patch(Nth(value, j), here + [j], chosen + {here + place}, resolver)
             == Patch(Nth(value, j), here + [j], chosen, resolver)
      {
        NotBelow(here, j, here + place);
        assert (here + place)[|here|] == i;
        PatchElsewhere(Nth(value, j), here + [j], chosen, resolver, here + place);
      }
      ReplacedChild(value, here, chosen, resolver, place);
    }
  }

  lemma ReplacedChild(value: Value, here: Place, chosen: set<Place>, resolver: string -> Option<string>, place: Place)
    requires place != [] && At(value, place).Some? && At(Patch(value, here, chosen, resolver), place).Some?
    requires At(value, place).value.Text? && resolver(At(value, place).value.text).Some?
    requires var i := place[0];
      var new_ := Text(resolver(At(value, place).value.text).value);
      var child := Patch(Nth(value, i), here + [i], chosen, resolver);
      && At(child, place[1..]).Some?
      && Replace(child, place[1..], new_) == Patch(Nth(value, i), here + [i], chosen + {here + place}, resolver)
    requires forall j | 0 <= j < Size(value) && j != place[0] ::
      Patch(Nth(value, j), here + [j], chosen + {here + place}, resolver)
        == Patch(Nth(value, j), here + [j], chosen, resolver)
    ensures Replace(Patch(value, here, chosen, resolver), place, Text(resolver(At(value, place).value.text).value))
         == Patch(value, here, chosen + {here + place}, resolver)
  {
    hide Patch, Choose;
    var patched, more := Patch(value, here, chosen, resolver), Patch(value, here, chosen + {here + place}, resolver);
    PatchedShape(value, here, chosen, resolver);
    PatchedShape(value, here, chosen + {here + place}, resolver);
    PatchedKeys(value, here, chosen, resolver);
    PatchedKeys(value, here, chosen + {here + place}, resolver);
    var new_ := Text(resolver(At(value, place).value.text).value);
    SameShape(Replace(patched, place, new_), more);
  }

  lemma PatchedKeys(value: Value, here: Place, chosen: set<Place>, resolver: string -> Option<string>)
    ensures var patched := Patch(value, here, chosen, resolver);
      value.Object? ==>
        && patched.Object? && |patched.entries| == |value.entries|
        && forall i | 0 <= i < |value.entries| :: patched.entries[i].key == value.entries[i].key
  {
  }

  lemma SameShape(a: Value, b: Value)
    requires (a.Object? && b.Object?) || (a.Array? && b.Array?)
    requires Size(a) == Size(b) && forall i | 0 <= i < Size(a) :: Nth(a, i) == Nth(b, i)
    requires a.Object? ==> forall i | 0 <= i < Size(a) :: a.entries[i].key == b.entries[i].key
    ensures a == b
  {
    if a.Object? {
      forall i | 0 <= i < Size(a)
        ensures a.entries[i] == b.entries[i]
      {
        assert Nth(a, i) == Nth(b, i);
      }
      assert a.entries == b.entries;
    } else {
      forall i | 0 <= i < Size(a)
        ensures a.items[i] == b.items[i]
      {
        assert Nth(a, i) == Nth(b, i);
      }
      assert a.items == b.items;
    }
  }

  lemma {:induction false} PatchNothing(value: Value, here: Place, resolver: string -> Option<string>)
    ensures Patch(value, here, {}, resolver) == value
    decreases value
  {
    match value
    case Object(entries) =>
      forall i | 0 <= i < |entries|
        ensures Patch(entries[i].value, here + [i], {}, resolver) == entries[i].value
      {
        PatchNothing(entries[i].value, here + [i], resolver);
      }
    case Array(items) =>
      forall i | 0 <= i < |items|
        ensures Patch(items[i], here + [i], {}, resolver) == items[i]
      {
        PatchNothing(items[i], here + [i], resolver);
      }
    case _ =>
  }

  // Which texts are replaced.

  predicate HasPlaceholder(value: Option<Value>) {
    value.Some? && value.value.Text? && Find(value.value.text, "${").Some?
  }

  /** The place whose text is replaced on account of a flattened scalar: where its path leads. */
  function Addressed(snapshot: Value, leaf: Setting): (place: Option<Place>)
    ensures place.Some? ==> HasPlaceholder(At(snapshot, place.value))
  {
    var place := Locate(snapshot, Segments(leaf.path));
    if leaf.value.Text? && place.Some? && HasPlaceholder(At(snapshot, place.value)) then place else None
  }

  function Chosen(snapshot: Value, leaves: seq<Setting>): (places: set<Place>)
    ensures forall place | place in places :: HasPlaceholder(At(snapshot, place))
  {
    if leaves == [] then {} else
    var last := Addressed(snapshot, leaves[|leaves| - 1]);
    Chosen(snapshot, leaves[..|leaves| - 1]) + if last.Some? then {last.value} else {}
  }

  predicate Resolves(snapshot: Value, resolver: string -> Option<string>, place: Place)
    requires HasPlaceholder(At(snapshot, place))
  {
    resolver(At(snapshot, place).value.text).Some?
  }

  lemma UpdateIsReplace(
      snapshot: Value, resolver: string -> Option<string>, chosen: set<Place>, leaf: Setting)
    ensures var tree := Patch(snapshot, [], chosen, resolver);
      var update := Update(snapshot, resolver, leaf);
      var place := Addressed(snapshot, leaf);
      if place.None? then update == Some([])
      else if !Resolves(snapshot, resolver, place.value) then update == None
      else update.Some? && Apply(tree, update.value) == Patch(snapshot, [], chosen + {place.value}, resolver)
  {
    hide SetAt, Segments, Patch, FindIn, Apply, Locate;
    GetIsAt(snapshot, Segments(leaf.path));
    var place := Addressed(snapshot, leaf);
    if place.Some? && Resolves(snapshot, resolver, place.value) {
      var tree := Patch(snapshot, [], chosen, resolver);
      var resolved := Text(resolver(At(snapshot, place.value).value.text).value);
      PatchKeepsPlaces(snapshot, [], chosen, resolver, Segments(leaf.path));
      OneSetting(tree, Setting(leaf.path, resolved));
      SetIsReplace(tree, Segments(leaf.path), resolved);
      PatchOneMore(snapshot, [], chosen, resolver, place.value);
      assert [] + place.value == place.value;
    }
  }

  /** Resolving replaces the chosen texts, each in its place, and nothing else; it fails exactly when one of
      them does. */
  lemma {:induction false} TreeIsPatched(snapshot: Value, resolver: string -> Option<string>, leaves: seq<Setting>)
    ensures var chosen := Chosen(snapshot, leaves);
      UpdateAll(snapshot, resolver, snapshot, leaves)
        == if forall place | place in chosen :: Resolves(snapshot, resolver, place)
           then Some(Patch(snapshot, [], chosen, resolver)) else None
    decreases |leaves|
  {
    hide Update, Apply, Patch, Addressed, Resolves;
    if leaves == [] {
      PatchNothing(snapshot, [], resolver);
    } else {
      var init, last := leaves[..|leaves| - 1], leaves[|leaves| - 1];
      TreeIsPatched(snapshot, resolver, init);
      UpdateIsReplace(snapshot, resolver, Chosen(snapshot, init), last);
      ApplyNothing(Patch(snapshot, [], Chosen(snapshot, init), resolver));
      assert Chosen(snapshot, init) + {} == Chosen(snapshot, init);
    }
  }

  /** A text is replaced exactly when the path written for some text leads to it. */
  lemma {:induction false} ChosenExactly(snapshot: Value, leaves: seq<Setting>, place: Place)
    ensures place in Chosen(snapshot, leaves)
       <==> exists leaf :: leaf in leaves && Addressed(snapshot, leaf) == Some(place)
    decreases |leaves|
  {
    hide Addressed;
    if leaves != [] {
      var init, last := leaves[..|leaves| - 1], leaves[|leaves| - 1];
      ChosenExactly(snapshot, init, place);
      assert leaves == init + [last];
    }
  }

  /** The keys above a text decide: readable ones let it be replaced, one with a dot keeps it from that. */
  lemma KeysDecide(tree: Value, place: Place)
    requires IsTree(tree) && HasPlaceholder(At(tree, place))
    ensures AreReadable(Steps(tree, place)) ==> place in Chosen(tree, FlattenFrom(tree, ""))
    ensures (exists step :: step in Steps(tree, place) && HasDot(step)) ==>
        place !in Chosen(tree, FlattenFrom(tree, ""))
  {
    hide Segments, FlattenFrom, Steps, WrittenPath, Locate, HasDot, AreReadable, Chosen, IsTree, FindIn;
    var leaves := FlattenFrom(tree, "");
    ChosenExactly(tree, leaves, place);
    if AreReadable(Steps(tree, place)) {
      ScalarIsListed(tree, "", place);
      WrittenPathIsRead(tree, "", place);
      StepsLead(tree, place);
      NothingInPath();
      assert [] + Steps(tree, place) == Steps(tree, place);
      var leaf := Setting(WrittenPath(tree, "", place), At(tree, place).value);
      assert Addressed(tree, leaf) == Some(place);
    }
    if place in Chosen(tree, leaves) {
      var leaf :| leaf in leaves && Addressed(tree, leaf) == Some(place);
      ReadHasNoDot(leaf.path);
      NoPathThroughDot(tree, Segments(leaf.path));
    }
  }

  /** What becomes of the value at a place when a tree is resolved. */
  lemma TextsChange(target: Value, env: map<string, string>, json: Value -> string, place: Place)
    requires IsTree(target) && At(target, place).Some?
    ensures var resolver := Resolver(target, env, json);
      var result := UpdateAll(target, resolver, target, FlattenFrom(target, ""));
      var before := At(target, place);
      result.Some? ==>
        var after := At(result.value, place);
        && (HasPlaceholder(before) && AreReadable(Steps(target, place)) ==>
              resolver(before.value.text).Some? && after == Some(Text(resolver(before.value.text).value)))
        && (HasPlaceholder(before) && (exists step :: step in Steps(target, place) && HasDot(step)) ==> after == before)
        && (!HasPlaceholder(before) && !before.value.Object? && !before.value.Array? ==> after == before)
        && after.Some? && Size(after.value) == Size(before.value)
  {
    hide Segments, FlattenFrom, Steps, WrittenPath, Locate, HasDot, AreReadable, UpdateAll, Patch, IsTree, FindIn,
      Resolve;
    var resolver := Resolver(target, env, json);
    var leaves := FlattenFrom(target, "");
    TreeIsPatched(target, resolver, leaves);
    var chosen := Chosen(target, leaves);
    PatchedAt(target, [], chosen, resolver, place);
    assert [] + place == place;
    PatchedShape(At(target, place).value, place, chosen, resolver);
    if HasPlaceholder(At(target, place)) {
      KeysDecide(target, place);
    }
    PatchedScalar(At(target, place).value, place, chosen, resolver);
  }

  lemma PatchedScalar(value: Value, here: Place, chosen: set<Place>, resolver: string -> Option<string>)
    ensures here !in chosen && !value.Object? && !value.Array? ==> Patch(value, here, chosen, resolver) == value
    ensures here in chosen && value.Text? && resolver(value.text).Some? ==>
      Patch(value, here, chosen, resolver) == Text(resolver(value.text).value)
  {
  }

  /** A label such as `a.b` keeps its placeholder, whatever that is bound to. */
  lemma DottedKeyIsLeft(env: map<string, string>, json: Value -> string, tree: Value)
    requires tree == Object([Entry("a.b", Text("${X}"))])
    ensures UpdateAll(tree, Resolver(tree, env, json), tree, FlattenFrom(tree, "")) == Some(tree)
  {
    hide Segments, FlattenFrom, Locate, UpdateAll, Patch, FindIn, Resolve;
    var resolver := Resolver(tree, env, json);
    var leaves := FlattenFrom(tree, "");
    TreeIsPatched(tree, resolver, leaves);
    forall place | place in Chosen(tree, leaves)
      ensures false
    {
      assert place != [] && place[0] == 0;
      assert HasDot(Step(tree, 0)) && Step(tree, 0) in Steps(tree, place);
      KeysDecide(tree, place);
    }
    assert Chosen(tree, leaves) == {};
    PatchNothing(tree, [], resolver);
  }

  /** Below a key that is neither readable nor dotted, such as `-[x]`, the keys above do not settle it: whether
      the text is replaced depends on what else there is in the tree. */
  lemma KeysAboveAreNotEnough(alone: Value, beside: Value)
    requires alone == Object([Entry("-[x]", Text("${X}"))])
    requires beside == Object([Entry("-[x]", Text("${X}")), Entry("", Object([Entry("[x]", Text("${Y}"))]))])
    ensures At(alone, [0]).Some? && At(beside, [0]).Some? && Steps(alone, [0]) == Steps(beside, [0]) == [Key("-[x]")]
    ensures [0] !in Chosen(alone, FlattenFrom(alone, "")) && [0] in Chosen(beside, FlattenFrom(beside, ""))
  {
    hide FlattenFrom, Chosen, Steps, At;
    AloneIsLeft(alone);
    BesideIsReplaced(beside);
    FirstSteps(alone);
    FirstSteps(beside);
  }

  lemma FirstSteps(tree: Value)
    requires tree.Object? && tree.entries != []
    ensures At(tree, [0]).Some? && Steps(tree, [0]) == [Key(tree.entries[0].key)]
  {
    assert [0][1..] == [];
  }

  lemma AloneIsLeft(tree: Value)
    requires tree == Object([Entry("-[x]", Text("${X}"))])
    ensures [0] !in Chosen(tree, FlattenFrom(tree, ""))
  {
    hide Segments, FindIn, Chosen, RelaxedIndex, FlattenFrom, HasPlaceholder, Canonical;
    OddPaths();
    OddNames();
    OneLeaf(tree, "-[x]", "${X}");
    NoSuchEntry(tree.entries, "-");
    assert Locate(tree, [Key("-"), Key("[x]")]) == None;
    ChosenExactly(tree, FlattenFrom(tree, ""), [0]);
  }

  lemma BesideIsReplaced(tree: Value)
    requires tree == Object([Entry("-[x]", Text("${X}")), Entry("", Object([Entry("[x]", Text("${Y}"))]))])
    ensures [0] in Chosen(tree, FlattenFrom(tree, ""))
  {
    hide Segments, FindIn, Chosen, RelaxedIndex, FlattenFrom, Canonical;
    OddPaths();
    OddNames();
    FirstEntry(tree.entries, "[x]");
    assert [Key("[x]")][1..] == [] && [0] + [] == [0] && [0][1..] == [] && [1, 0][1..] == [0];
    assert Locate(tree, [Key("[x]")]) == Some([0]);
    PlaceholderAt("${X}");
    ScalarIsListed(tree, "", [1, 0]);
    var leaf := Setting("[x]", Text("${Y}"));
    assert WrittenPath(Nth(tree, 1), "", [0]) == "[x]";
    assert WrittenPath(tree, "", [1, 0]) == WrittenPath(Nth(tree, 1), "", [0]);
    assert At(tree, [1, 0]) == At(Nth(tree, 1), [0]) == Some(Text("${Y}"));
    ChosenExactly(tree, FlattenFrom(tree, ""), [0]);
    assert leaf in FlattenFrom(tree, "") && Addressed(tree, leaf) == Some([0]);
  }

  lemma PlaceholderAt(text: string)
    requires |text| >= 2 && text[..2] == "${"
    ensures Find(text, "${").Some?
  {
    hide FindIn;
    assert Occurs(text, "${", 0, |text|);
  }

  lemma OddPaths()
    ensures Segments("-[x]") == [Key("-"), Key("[x]")] && Segments("[x]") == [Key("[x]")]
  {
    hide Segments;
    NothingInPath();
    assert TrimBrackets("x") == "x" && "x]"[..1] == "x";
    assert TrimBrackets("x]") == "x" && ParseUsize("x") == None;
    assert BracketSegment("x]") == Key("[" + "x]") && "[" + "x]" == "[x]";
    SegmentsWithBracket("", "x]");
    SegmentsWithBracket("-", "x]");
    SegmentsWithKey("", "-");
    assert "" + "[" + "x]" == "[x]" && "-" + "[" + "x]" == "-[x]";
  }

  lemma OddNames()
    ensures SameName("-[x]", "[x]") && !SameName("-[x]", "-") && !SameName("", "[x]")
  {
    assert "-[x]"[1..] == "[x]";
    assert Canonical("-") == Canonical("-"[1..]) && "-"[1..] == "";
    assert Canonical("[x]")[0] == '[';
  }

  lemma OneLeaf(tree: Value, key: string, text: string)
    requires tree == Object([Entry(key, Text(text))])
    ensures FlattenFrom(tree, "") == [Setting(key, Text(text))]
  {
    hide Extend;
    assert tree.entries[..0] == [];
    assert Extend("", Key(key)) == key by {
      KeyAlone(key);
    }
    assert FlattenFrom(Text(text), key) == [Setting(key, Text(text))];
    assert FlattenEntries([], "") == [];
  }

  lemma KeyAlone(key: string)
    ensures Extend("", Key(key)) == key
  {
  }

  lemma NoSuchEntry(entries: seq<Entry>, key: string)
    requires forall i | 0 <= i < |entries| :: !SameName(entries[i].key, key)
    ensures RelaxedIndex(entries, key) == |entries|
  {
    hide SameName;
  }

  lemma FirstEntry(entries: seq<Entry>, key: string)
    requires entries != [] && SameName(entries[0].key, key)
    requires forall i | 0 <= i < |entries| :: entries[i].key != key
    ensures RelaxedIndex(entries, key) == 0
  {
    hide SameName;
  }
}
