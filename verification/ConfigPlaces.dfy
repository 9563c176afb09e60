/**
 Places in a tree: which child of which child, whatever the keys are. Paths lead to places
 (crates/containerproxy/src/config/tree.rs).
 */
module ConfigPlaces {
  import opened Wrappers
  import opened ConfigPaths
  import opened ConfigTree
  import opened ConfigLayers
  import opened ConfigFlatten

  type Place = seq<nat>

  function Size(value: Value): nat {
    match value
    case Object(entries) => |entries|
    case Array(items) => |items|
    case _ => 0
  }

  function Nth(value: Value, i: nat): Value
    requires i < Size(value)
  {
    if value.Object? then value.entries[i].value else value.items[i]
  }

  function At(value: Value, place: Place): Option<Value>
    decreases |place|
  {
    if place == [] then Some(value)
    else if place[0] < Size(value) then At(Nth(value, place[0]), place[1..])
    else None
  }

  /** Which child a segment leads to. */
  function Choose(value: Value, segment: Segment): Option<nat> {
    match segment
    case Key(key) =>
      if value.Object? && RelaxedIndex(value.entries, key) < |value.entries| then Some(RelaxedIndex(value.entries, key))
      else None
    case Index(index) => if value.Array? && index < |value.items| then Some(index) else None
  }

  /** The place that a path leads to. */
  function Locate(value: Value, path: seq<Segment>): (place: Option<Place>)
    decreases |path|
  {
    if path == [] then Some([]) else
    match Choose(value, path[0])
    case None => None
    case Some(i) =>
      match Locate(Nth(value, i), path[1..])
      case None => None
      case Some(rest) => Some([i] + rest)
  }

  function Replace(value: Value, place: Place, new_: Value): Value
    requires At(value, place).Some?
    decreases |place|
  {
    if place == [] then new_ else
    var child := Replace(Nth(value, place[0]), place[1..], new_);
    match value
    case Object(entries) => Object(entries[place[0] := Entry(entries[place[0]].key, child)])
    case Array(items) => Array(items[place[0] := child])
  }

  /** Looking up a path is going to its place. */
  lemma {:induction false} GetIsAt(value: Value, path: seq<Segment>)
    ensures GetAt(value, path) == match Locate(value, path) case None => None case Some(place) => At(value, place)
    decreases |path|
  {
    hide RelaxedIndex;
    if path != [] && Choose(value, path[0]).Some? {
      var i := Choose(value, path[0]).value;
      GetIsAt(Nth(value, i), path[1..]);
      if Locate(Nth(value, i), path[1..]).Some? {
        var rest := Locate(Nth(value, i), path[1..]).value;
        assert ([i] + rest)[1..] == rest;
      }
    }
  }

  /** Setting a path that leads to a place replaces what is there. */
  lemma {:induction false} SetIsReplace(value: Value, path: seq<Segment>, new_: Value)
    requires Locate(value, path).Some?
    ensures At(value, Locate(value, path).value).Some?
    ensures SetAt(value, path, new_) == Replace(value, Locate(value, path).value, new_)
    decreases |path|
  {
    hide RelaxedIndex;
    if path != [] {
      var i := Choose(value, path[0]).value;
      var rest := Locate(Nth(value, i), path[1..]).value;
      SetIsReplace(Nth(value, i), path[1..], new_);
      assert ([i] + rest)[1..] == rest;
    }
  }

  // The paths that places are written with.

  function Step(value: Value, i: nat): Segment
    requires i < Size(value)
  {
    if value.Object? then Key(value.entries[i].key) else Index(i)
  }

  function Steps(value: Value, place: Place): seq<Segment>
    requires At(value, place).Some?
    decreases |place|
  {
    if place == [] then [] else [Step(value, place[0])] + Steps(Nth(value, place[0]), place[1..])
  }

  /** The path that `flatten` writes for a place. */
  function WrittenPath(value: Value, prefix: string, place: Place): string
    requires At(value, place).Some?
    decreases |place|
  {
    if place == [] then prefix
    else WrittenPath(Nth(value, place[0]), Extend(prefix, Step(value, place[0])), place[1..])
  }

  /** Every scalar of the tree is listed with its path. */
  lemma {:induction false} ScalarIsListed(value: Value, prefix: string, place: Place)
    requires At(value, place).Some? && Size(At(value, place).value) == 0
    requires !At(value, place).value.Object? && !At(value, place).value.Array?
    ensures Setting(WrittenPath(value, prefix, place), At(value, place).value) in FlattenFrom(value, prefix)
    decreases |place|
  {
    hide Extend;
    if place != [] {
      var i := place[0];
      var inner := Extend(prefix, Step(value, i));
      ScalarIsListed(Nth(value, i), inner, place[1..]);
      if value.Object? {
        EntryIsListed(value.entries, prefix, i);
      } else {
        ItemIsListed(value.items, prefix, i);
      }
    }
  }

  lemma {:induction false} EntryIsListed(entries: seq<Entry>, prefix: string, i: nat)
    requires i < |entries|
    ensures forall leaf | leaf in FlattenFrom(entries[i].value, Extend(prefix, Key(entries[i].key))) ::
      leaf in FlattenEntries(entries, prefix)
    decreases |entries|
  {
    hide Extend, FlattenFrom;
    if i < |entries| - 1 {
      EntryIsListed(entries[..|entries| - 1], prefix, i);
    }
  }

  lemma {:induction false} ItemIsListed(items: seq<Value>, prefix: string, i: nat)
    requires i < |items|
    ensures forall leaf | leaf in FlattenFrom(items[i], Extend(prefix, Index(i))) :: leaf in FlattenItems(items, prefix)
    decreases |items|
  {
    hide Extend, FlattenFrom;
    if i < |items| - 1 {
      ItemIsListed(items[..|items| - 1], prefix, i);
    }
  }

  /** A key that is read as it is written. */
  predicate IsReadable(key: string) {
    Segments(key) == [Key(key)]
  }

  /** What is true of every tree in memory: no key twice in a map, and arrays that can be indexed. */
  predicate IsTree(value: Value)
    decreases value
  {
    match value
    case Object(entries) => AreTrees(entries)
    case Array(items) => |items| <= USIZE_LIMIT && forall i | 0 <= i < |items| :: IsTree(items[i])
    case _ => true
  }

  predicate AreTrees(entries: seq<Entry>)
    decreases entries
  {
    && (forall i, j | 0 <= i < j < |entries| :: entries[i].key != entries[j].key)
    && forall i | 0 <= i < |entries| :: IsTree(entries[i].value)
  }

  predicate AreReadable(steps: seq<Segment>) {
    forall step | step in steps && step.Key? :: IsReadable(step.name)
  }

  /** The steps to a place lead to it. */
  lemma {:induction false} StepsLead(value: Value, place: Place)
    requires IsTree(value) && At(value, place).Some?
    ensures Locate(value, Steps(value, place)) == Some(place)
    decreases |place|
  {
    hide Choose, Step;
    if place != [] {
      var child := Nth(value, place[0]);
      ChoosesStep(value, place[0]);
      StepsLead(child, place[1..]);
      assert ([Step(value, place[0])] + Steps(child, place[1..]))[1..] == Steps(child, place[1..]);
      assert [place[0]] + place[1..] == place;
    }
  }

  /** The path that is written for a place under readable keys is read as the steps to it. */
  lemma {:induction false} WrittenPathIsRead(value: Value, prefix: string, place: Place)
    requires IsTree(value) && At(value, place).Some? && AreReadable(Steps(value, place))
    ensures Segments(WrittenPath(value, prefix, place)) == Segments(prefix) + Steps(value, place)
    decreases |place|
  {
    hide Segments, Step, IsReadable, Extend, IsTree;
    if place == [] {
      assert Segments(prefix) + [] == Segments(prefix);
    } else {
      var i := place[0];
      var child, step := Nth(value, i), Step(value, i);
      FirstStep(value, place);
      WrittenPathIsRead(child, Extend(prefix, step), place[1..]);
      StepIsRead(value, prefix, i);
      Associate(Segments(prefix), [step], Steps(child, place[1..]));
    }
  }

  lemma FirstStep(value: Value, place: Place)
    requires IsTree(value) && At(value, place).Some? && AreReadable(Steps(value, place)) && place != []
    ensures IsTree(Nth(value, place[0])) && AreReadable(Steps(Nth(value, place[0]), place[1..]))
    ensures Step(value, place[0]).Key? ==> IsReadable(Step(value, place[0]).name)
  {
    hide Step, IsReadable;
    var steps := Steps(value, place);
    assert steps[0] == Step(value, place[0]) && steps[0] in steps;
    forall other | other in Steps(Nth(value, place[0]), place[1..])
      ensures other in steps
    {
    }
  }

  lemma StepIsRead(value: Value, prefix: string, i: nat)
    requires IsTree(value) && i < Size(value) && (Step(value, i).Key? ==> IsReadable(Step(value, i).name))
    ensures Segments(Extend(prefix, Step(value, i))) == Segments(prefix) + [Step(value, i)]
  {
    hide Segments;
    match Step(value, i)
    case Key(key) =>
      NothingInPath();
      SegmentsJoined(prefix, key);
    case Index(index) => SegmentsExtend(prefix, Index(index));
  }

  lemma ChoosesStep(value: Value, i: nat)
    requires IsTree(value) && i < Size(value)
    ensures Choose(value, Step(value, i)) == Some(i)
  {
    if value.Object? {
      assert value.entries[i].key == Step(value, i).name;
    }
  }

  // Keys with a dot.

  predicate HasDot(step: Segment) {
    step.Key? && '.' in step.name
  }

  /** No path leads below a key with a dot. */
  lemma {:induction false} NoPathThroughDot(value: Value, path: seq<Segment>)
    requires Locate(value, path).Some?
    requires forall segment | segment in path :: !HasDot(segment)
    ensures At(value, Locate(value, path).value).Some?
    ensures forall step | step in Steps(value, Locate(value, path).value) :: !HasDot(step)
    decreases |path|
  {
    hide RelaxedIndex, Canonical;
    if path != [] {
      var i := Choose(value, path[0]).value;
      var rest := Locate(Nth(value, i), path[1..]).value;
      NoPathThroughDot(Nth(value, i), path[1..]);
      assert ([i] + rest)[1..] == rest && path[0] in path;
      if path[0].Key? {
        DotsAreKept(path[0].name);
        DotsAreKept(value.entries[i].key);
        assert SameName(value.entries[i].key, path[0].name);
      }
    }
  }

  lemma {:induction false} DotsAreKept(key: string)
    ensures '.' in Canonical(key) <==> '.' in key
  {
    if key != "" {
      DotsAreKept(key[1..]);
      assert key == [key[0]] + key[1..];
    }
  }

  /** What a path can be read as. */
  predicate IsRead(segment: Segment) {
    !HasDot(segment) && (segment.Index? ==> segment.index < USIZE_LIMIT)
  }

  /** What is read from a path has no dots in its keys. */
  lemma ReadHasNoDot(path: string)
    ensures forall segment | segment in Segments(path) :: IsRead(segment)
  {
    hide RawSegments;
    PartsHaveNone(path, '.');
    RawsHaveNoDot(SplitOn(path, '.'));
  }

  lemma {:induction false} PartsHaveNone(text: string, c: char)
    ensures forall part | part in SplitOn(text, c) :: c !in part
    decreases |text|
  {
    var k := IndexOf(text, c);
    if k < |text| {
      PartsHaveNone(text[k + 1..], c);
    }
  }

  lemma {:induction false} PartsHaveNoOther(text: string, c: char, other: char)
    requires other !in text
    ensures forall part | part in SplitOn(text, c) :: other !in part
    decreases |text|
  {
    var k := IndexOf(text, c);
    if k < |text| {
      PartsHaveNoOther(text[k + 1..], c, other);
    }
  }

  lemma {:induction false} RawsHaveNoDot(raws: seq<string>)
    requires forall raw | raw in raws :: '.' !in raw
    ensures forall segment | segment in AllRawSegments(raws) :: IsRead(segment)
  {
    hide RawSegments, IsRead;
    if raws != [] {
      RawHasNoDot(raws[0]);
      RawsHaveNoDot(raws[1..]);
    }
  }

  lemma RawHasNoDot(raw: string)
    requires '.' !in raw
    ensures forall segment | segment in RawSegments(raw) :: IsRead(segment)
  {
    hide BracketSegments, SplitOn;
    var bracket := IndexOf(raw, '[');
    PartsHaveNoOther(raw[bracket..], '[', '.');
    BracketsHaveNoDot(SplitOn(raw[bracket..], '['));
  }

  lemma {:induction false} BracketsHaveNoDot(parts: seq<string>)
    requires forall part | part in parts :: '.' !in part
    ensures forall segment | segment in BracketSegments(parts) :: IsRead(segment)
  {
    if parts != [] {
      BracketsHaveNoDot(parts[1..]);
      assert '.' !in "[" + parts[0];
    }
  }
}
