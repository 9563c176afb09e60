/**
 The configuration tree (crates/containerproxy/src/config/tree.rs). A map is the sequence of its entries,
 in the order in which they were inserted.
 */
module ConfigTree {
  import opened Ascii
  import opened Wrappers
  import opened ConfigPaths

  datatype Value =
    | Null
    | Bool(b: bool)
    | Number(digits: string)
    | Text(text: string)
    | Array(items: seq<Value>)
    | Object(entries: seq<Entry>)

  datatype Entry = Entry(key: string, value: Value)

  /** What is left of a name when the case of letters, `-` and `_` make no difference. */
  function Canonical(name: string): string {
    if name == "" then ""
    else (if name[0] == '-' || name[0] == '_' then "" else [LowerCase(name[0])]) + Canonical(name[1..])
  }

  predicate SameName(a: string, b: string) {
    Canonical(a) == Canonical(b)
  }

  /** The place of a key; the number of entries if it is not there. */
  function ExactIndex(entries: seq<Entry>, key: string): (i: nat)
    ensures i <= |entries|
    ensures i < |entries| ==> entries[i].key == key
    ensures forall j :: 0 <= j < i ==> entries[j].key != key
  {
    if entries == [] || entries[0].key == key then 0 else 1 + ExactIndex(entries[1..], key)
  }

  function CanonicalIndex(entries: seq<Entry>, key: string): (i: nat)
    ensures i <= |entries|
    ensures i < |entries| ==> SameName(entries[i].key, key)
    ensures forall j :: 0 <= j < i ==> !SameName(entries[j].key, key)
  {
    if entries == [] || SameName(entries[0].key, key) then 0 else 1 + CanonicalIndex(entries[1..], key)
  }

  /** The entry that a key refers to: spelled the same, or else the first with the same name. */
  function RelaxedIndex(entries: seq<Entry>, key: string): (i: nat)
    ensures i <= |entries|
    ensures i < |entries| ==> SameName(entries[i].key, key)
    ensures i == |entries| ==> forall j :: 0 <= j < i ==> !SameName(entries[j].key, key)
  {
    if ExactIndex(entries, key) < |entries| then ExactIndex(entries, key) else CanonicalIndex(entries, key)
  }

  /** A key that is spelled the same comes first, then the first one with the same name. */
  lemma SpellingComesFirst(entries: seq<Entry>, key: string)
    ensures var i := RelaxedIndex(entries, key);
      if exists j :: 0 <= j < |entries| && entries[j].key == key then
        i < |entries| && entries[i].key == key && forall j :: 0 <= j < i ==> entries[j].key != key
      else
        forall j :: 0 <= j < i ==> !SameName(entries[j].key, key)
  {
    hide SameName;
    var exact := ExactIndex(entries, key);
    if exact < |entries| {
      assert entries[exact].key == key;
    }
  }

  function Child(entries: seq<Entry>, key: string): Option<Value> {
    var i := RelaxedIndex(entries, key);
    if i < |entries| then Some(entries[i].value) else None
  }

  function Down(value: Value, segment: Segment): Option<Value> {
    match segment
    case Key(key) => if value.Object? then Child(value.entries, key) else None
    case Index(index) => if value.Array? && index < |value.items| then Some(value.items[index]) else None
  }

  function GetAt(root: Value, path: seq<Segment>): Option<Value>
    decreases |path|
  {
    if path == [] then Some(root)
    else if Down(root, path[0]).None? then None
    else GetAt(Down(root, path[0]).value, path[1..])
  }

  method Get(root: Value, path: string) returns (r: Option<Value>)
    ensures r == GetAt(root, Segments(path))
  {
    var segments := ParsePath(path);
    var current := root;
    for i := 0 to |segments|
      invariant GetAt(root, segments) == GetAt(current, segments[i..])
    {
      assert segments[i..][1..] == segments[i + 1..];
      match segments[i] {
        case Key(key) =>
          if !current.Object? {
            return None;
          }
          var at := RelaxedIndex(current.entries, key);
          if at == |current.entries| {
            return None;
          }
          current := current.entries[at].value;
        case Index(index) =>
          if !current.Array? || index >= |current.items| {
            return None;
          }
          current := current.items[index];
      }
    }
    return Some(current);
  }

  function EntriesOf(value: Value): seq<Entry> {
    if value.Object? then value.entries else []
  }

  function ItemsOf(value: Value): seq<Value> {
    if value.Array? then value.items else []
  }

  function Padded(items: seq<Value>, size: nat): (r: seq<Value>)
    ensures |r| >= size
  {
    if |items| >= size then items else items + seq(size - |items|, i => Null)
  }

  /** The value takes the place of the one that the key refers to, or is added behind all others. */
  function Put(entries: seq<Entry>, key: string, value: Value): seq<Entry> {
    var i := RelaxedIndex(entries, key);
    if i < |entries| then entries[i := Entry(entries[i].key, value)] else entries + [Entry(key, value)]
  }

  function ChildOrNull(root: Value, segment: Segment): Value {
    if Down(root, segment).Some? then Down(root, segment).value else Null
  }

  /** Maps and arrays are made on the way as needed; what else is in the way is replaced. */
  function SetAt(root: Value, path: seq<Segment>, value: Value): Value
    decreases |path|
  {
    if path == [] then value else
    WithChild(root, path[0], SetAt(ChildOrNull(root, path[0]), path[1..], value))
  }

  /** The changed child is put back into its parent. */
  function WithChild(root: Value, segment: Segment, child: Value): Value {
    match segment
    case Key(key) => Object(Put(EntriesOf(root), key, child))
    case Index(index) => Array(Padded(ItemsOf(root), index + 1)[index := child])
  }

  // Entries that are replaced or added.

  lemma IndexAfterUpdate(entries: seq<Entry>, i: nat, value: Value, key: string)
    requires i < |entries|
    ensures RelaxedIndex(entries[i := Entry(entries[i].key, value)], key) == RelaxedIndex(entries, key)
  {
    SameKeys(entries, entries[i := Entry(entries[i].key, value)], key);
  }

  lemma SameKeys(a: seq<Entry>, b: seq<Entry>, key: string)
    requires |a| == |b| && forall j :: 0 <= j < |a| ==> a[j].key == b[j].key
    ensures RelaxedIndex(a, key) == RelaxedIndex(b, key)
  {
    hide SameName;
    var i, j := ExactIndex(a, key), ExactIndex(b, key);
    assert i < |a| ==> b[i].key == key;
    assert j < |a| ==> a[j].key == key;
    assert i == j;
    var k, l := CanonicalIndex(a, key), CanonicalIndex(b, key);
    assert k < |a| ==> SameName(b[k].key, key);
    assert l < |a| ==> SameName(a[l].key, key);
  }

  lemma IndexAfterAdd(entries: seq<Entry>, entry: Entry, key: string)
    requires RelaxedIndex(entries, entry.key) == |entries|
    ensures SameName(entry.key, key) ==> RelaxedIndex(entries + [entry], key) == |entries|
    ensures !SameName(entry.key, key) ==>
      RelaxedIndex(entries + [entry], key)
        == if RelaxedIndex(entries, key) < |entries| then RelaxedIndex(entries, key) else |entries| + 1
  {
    hide Canonical;
    var more := entries + [entry];
    assert forall j :: 0 <= j < |entries| ==> more[j] == entries[j];
    var i, j := ExactIndex(entries, key), ExactIndex(more, key);
    assert i < |entries| ==> more[i].key == key;
    assert j < |entries| ==> entries[j].key == key;
    var k, l := CanonicalIndex(entries, key), CanonicalIndex(more, key);
    assert k < |entries| ==> SameName(more[k].key, key);
    assert l < |entries| ==> SameName(entries[l].key, key);
    assert more[|entries|] == entry;
  }

  lemma NamesAreAnEquivalence(a: string, b: string)
    ensures SameName(a, a) && (SameName(a, b) <==> SameName(b, a))
  {
  }

  /** What was put in is found under its key. */
  lemma PutThenChild(entries: seq<Entry>, key: string, value: Value)
    ensures Child(Put(entries, key, value), key) == Some(value)
  {
    hide RelaxedIndex, SameName;
    var i := RelaxedIndex(entries, key);
    NamesAreAnEquivalence(key, key);
    if i < |entries| {
      IndexAfterUpdate(entries, i, value, key);
    } else {
      IndexAfterAdd(entries, Entry(key, value), key);
    }
  }

  /** A key with another name finds what it found before. */
  lemma PutElsewhere(entries: seq<Entry>, key: string, value: Value, other: string)
    requires !SameName(key, other)
    ensures Child(Put(entries, key, value), other) == Child(entries, other)
  {
    hide RelaxedIndex, Canonical;
    var i := RelaxedIndex(entries, key);
    if i < |entries| {
      IndexAfterUpdate(entries, i, value, other);
      assert RelaxedIndex(entries, other) != i;
    } else {
      IndexAfterAdd(entries, Entry(key, value), other);
    }
  }

  /** A key with the same name finds what was put in, or what it found before. */
  lemma PutNearby(entries: seq<Entry>, key: string, value: Value, other: string)
    requires SameName(key, other)
    ensures
      || (Child(entries, other).Some? && Child(Put(entries, key, value), other) == Child(entries, other))
      || (Child(entries, other) == Child(entries, key) && Child(Put(entries, key, value), other) == Some(value))
  {
    hide RelaxedIndex, Canonical;
    var i := RelaxedIndex(entries, key);
    if i < |entries| {
      IndexAfterUpdate(entries, i, value, other);
    } else {
      IndexAfterAdd(entries, Entry(key, value), other);
    }
  }

  lemma PutTwice(entries: seq<Entry>, key: string, first: Value, second: Value)
    ensures Put(Put(entries, key, first), key, second) == Put(entries, key, second)
  {
    hide RelaxedIndex, SameName;
    var i := RelaxedIndex(entries, key);
    NamesAreAnEquivalence(key, key);
    if i < |entries| {
      IndexAfterUpdate(entries, i, first, key);
    } else {
      IndexAfterAdd(entries, Entry(key, first), key);
    }
  }

  // Lens laws.

  lemma DownAfterSet(root: Value, path: seq<Segment>, value: Value)
    requires path != []
    ensures Down(SetAt(root, path, value), path[0]) == Some(SetAt(ChildOrNull(root, path[0]), path[1..], value))
  {
    hide Put, Child;
    if path[0].Key? {
      PutThenChild(EntriesOf(root), path[0].name, SetAt(ChildOrNull(root, path[0]), path[1..], value));
    }
  }

  /** What is set is found, whatever the tree. */
  lemma {:induction false} GetAfterSet(root: Value, path: seq<Segment>, value: Value)
    ensures GetAt(SetAt(root, path, value), path) == Some(value)
    decreases |path|
  {
    if path != [] {
      hide Down;
      GetAfterSet(ChildOrNull(root, path[0]), path[1..], value);
      DownAfterSet(root, path, value);
    }
  }

  lemma SetStep(root: Value, path: seq<Segment>, value: Value)
    requires path != []
    ensures SetAt(root, path, value)
         == WithChild(root, path[0], SetAt(ChildOrNull(root, path[0]), path[1..], value))
  {
    hide Put, Down;
  }

  lemma WithChildTwice(root: Value, segment: Segment, first: Value, second: Value)
    ensures WithChild(WithChild(root, segment, first), segment, second) == WithChild(root, segment, second)
  {
    hide Put;
    match segment
    case Key(key) => PutTwice(EntriesOf(root), key, first, second);
    case Index(index) => UpdatedTwice(Padded(ItemsOf(root), index + 1), index, first, second);
  }

  /** Setting twice is setting the second time. */
  lemma {:induction false} SetTwice(root: Value, path: seq<Segment>, first: Value, second: Value)
    ensures SetAt(SetAt(root, path, first), path, second) == SetAt(root, path, second)
    decreases |path|
  {
    if path != [] {
      hide SetAt, WithChild, Down;
      var child := ChildOrNull(root, path[0]);
      var once := SetAt(root, path, first);
      SetTwice(child, path[1..], first, second);
      DownAfterSet(root, path, first);
      SetStep(root, path, first);
      SetStep(root, path, second);
      SetStep(once, path, second);
      WithChildTwice(root, path[0], SetAt(child, path[1..], first), SetAt(child, path[1..], second));
    } else {
      NoPath(SetAt(root, path, first), second);
      NoPath(root, second);
    }
  }

  lemma NoPath(root: Value, value: Value)
    ensures SetAt(root, [], value) == value
  {
  }

  lemma UpdatedTwice(items: seq<Value>, index: nat, first: Value, second: Value)
    requires index < |items|
    ensures Padded(items[index := first], index + 1) == items[index := first]
    ensures items[index := first][index := second] == items[index := second]
  {
  }

  /** Setting what is there changes nothing. */
  lemma {:induction false} SetSame(root: Value, path: seq<Segment>)
    requires GetAt(root, path).Some?
    ensures SetAt(root, path, GetAt(root, path).value) == root
    decreases |path|
  {
    if path != [] {
      SetSame(Down(root, path[0]).value, path[1..]);
    }
  }

  /** The paths part at two keys with different names. */
  predicate Diverge(a: seq<Segment>, b: seq<Segment>)
    decreases |a|
  {
    && a != [] && b != []
    && if a[0].Key? && b[0].Key? then
         !SameName(a[0].name, b[0].name) || Diverge(a[1..], b[1..])
       else
         a[0] == b[0] && Diverge(a[1..], b[1..])
  }

  /** The paths part at two keys with different names, or at two indexes. */
  predicate Apart(a: seq<Segment>, b: seq<Segment>)
    decreases |a|
  {
    && a != [] && b != [] && a[0].Key? == b[0].Key?
    && ((if a[0].Key? then !SameName(a[0].name, b[0].name) else a[0] != b[0]) || Apart(a[1..], b[1..]))
  }

  /** They part at the last index of the second, which is the smaller one: setting the first may pad up to it. */
  predicate Pads(a: seq<Segment>, b: seq<Segment>)
    decreases |a|
  {
    && a != [] && b != [] && a[0].Key? == b[0].Key?
    && if a[0].Key? then SameName(a[0].name, b[0].name) && Pads(a[1..], b[1..])
       else if a[0] == b[0] then Pads(a[1..], b[1..])
       else |b| == 1 && b[0].index < a[0].index
  }

  /** As before, but that null may have come where there was nothing. */
  predicate IsKept(before: Option<Value>, after: Option<Value>, padded: bool) {
    after == before || (padded && before.None? && after == Some(Null))
  }

  /** Setting keeps what is at a path apart from it. */
  lemma {:induction false} SetApart(root: Value, path: seq<Segment>, value: Value, other: seq<Segment>)
    requires Apart(path, other)
    ensures IsKept(GetAt(root, other), GetAt(SetAt(root, path, value), other), Pads(path, other))
    decreases |path|
  {
    hide WithChild, ChildOrNull, SameName, IsKept, Down;
    var below := ChildOrNull(root, path[0]);
    var child := SetAt(below, path[1..], value);
    NothingIsKept(Pads(path, other));
    if Apart(path[1..], other[1..]) {
      SetApart(below, path[1..], value, other[1..]);
      NothingBelowNull(other[1..]);
    }
    if path[0].Key? && SameName(path[0].name, other[0].name) {
      KeyNearby(root, path[0].name, child, other[0].name);
    } else if path[0].Key? {
      KeyElsewhere(root, path[0].name, child, other[0].name);
    } else {
      IndexNearby(root, path[0].index, child, other[0].index);
      OneIsAll(other);
    }
  }

  lemma NothingIsKept(padded: bool)
    ensures forall before: Option<Value> :: IsKept(before, before, padded)
  {
  }

  lemma OneIsAll(path: seq<Segment>)
    requires path != []
    ensures if |path| == 1 then path[1..] == [] else GetAt(Null, path[1..]) == None
    ensures |path| == 1 ==> IsKept(None, Some(Null), true)
  {
  }

  /** Under a key of the same name there is the new child now, or the same one of another spelling. */
  lemma KeyNearby(root: Value, key: string, child: Value, other: string)
    requires SameName(key, other)
    ensures var before, after := Down(root, Key(other)), Down(WithChild(root, Key(key), child), Key(other));
      || (before.Some? && after == before)
      || (after == Some(child) && ChildOrNull(root, Key(key)) == if before.Some? then before.value else Null)
  {
    hide Put, Child, SameName;
    NoChild(key);
    NoChild(other);
    PutNearby(EntriesOf(root), key, child, other);
  }

  lemma KeyElsewhere(root: Value, key: string, child: Value, other: string)
    requires !SameName(key, other)
    ensures Down(WithChild(root, Key(key), child), Key(other)) == Down(root, Key(other))
  {
    hide Put, Child, SameName;
    NoChild(other);
    PutElsewhere(EntriesOf(root), key, child, other);
  }

  /** At the same index there is the new child now, at a smaller one perhaps null, at others what there was. */
  lemma IndexNearby(root: Value, index: nat, child: Value, other: nat)
    ensures var before, after := Down(root, Index(other)), Down(WithChild(root, Index(index), child), Index(other));
      if index == other then
        after == Some(child) && ChildOrNull(root, Index(index)) == if before.Some? then before.value else Null
      else after == before || (before.None? && after == Some(Null) && other < index)
  {
  }

  lemma {:induction false} DivergeIsApart(a: seq<Segment>, b: seq<Segment>)
    requires Diverge(a, b)
    ensures Apart(a, b) && !Pads(a, b)
    decreases |a|
  {
    hide SameName;
    if Diverge(a[1..], b[1..]) {
      DivergeIsApart(a[1..], b[1..]);
    }
  }

  /** Setting changes nothing behind a path that parts from it at a key. */
  lemma SetElsewhere(root: Value, path: seq<Segment>, value: Value, other: seq<Segment>)
    requires Diverge(path, other)
    ensures GetAt(SetAt(root, path, value), other) == GetAt(root, other)
  {
    hide GetAt, SetAt, Apart, Pads;
    DivergeIsApart(path, other);
    SetApart(root, path, value, other);
  }

  lemma NoChild(key: string)
    ensures Child([], key) == None
  {
  }

  lemma NothingBelowNull(path: seq<Segment>)
    requires path != []
    ensures GetAt(Null, path) == None
  {
  }
}
