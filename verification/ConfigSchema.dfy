/**
 The schema: which property paths there are, and how they are spelled
 (crates/containerproxy/src/config/schema.rs).
 */
module ConfigSchema {
  import opened Wrappers
  import opened ConfigPaths
  import opened ConfigTree

  /** A property; `isMap` marks free-form maps, whose keys are never rewritten. */
  datatype KeyDef = KeyDef(path: string, isMap: bool)

  type Schema = seq<KeyDef>

  /** Rust's `trim_end_matches("[]")`. */
  function TrimMarkers(part: string): string {
    if |part| >= 2 && part[|part| - 2..] == "[]" then TrimMarkers(part[..|part| - 2]) else part
  }

  function NameOf(segment: Segment): seq<string> {
    match segment
    case Index(_) => []
    case Key(key) => if TrimMarkers(key) == "" then [] else [Canonical(TrimMarkers(key))]
  }

  function NamesOf(segments: seq<Segment>): seq<string> {
    if segments == [] then []
    else NamesOf(segments[..|segments| - 1]) + NameOf(segments[|segments| - 1])
  }

  /** The canonical names along a path, without indexes and `[]` markers. */
  function Names(path: string): seq<string> {
    NamesOf(Segments(path))
  }

  function Join(names: seq<string>): string {
    if names == [] then ""
    else if |names| == 1 then names[0]
    else names[0] + "." + Join(names[1..])
  }

  function CanonicalPath(path: string): string {
    Join(Names(path))
  }

  /** The definition of a path. */
  function Find(schema: Schema, path: string): Option<KeyDef> {
    FindCanonical(schema, CanonicalPath(path))
  }

  function FindCanonical(schema: Schema, canonical: string): Option<KeyDef> {
    if schema == [] then None
    else if CanonicalPath(schema[0].path) == canonical then Some(schema[0])
    else FindCanonical(schema[1..], canonical)
  }

  /** The parts of a path as the schema spells them. */
  function Spellings(path: string): seq<string> {
    var parts := SplitOn(path, '.');
    seq(|parts|, i requires 0 <= i < |parts| => TrimMarkers(parts[i]))
  }

  predicate Covers(definition: string, canonical: string) {
    CanonicalPath(definition) == canonical || canonical + "." <= CanonicalPath(definition)
  }

  /** How the schema spells the last name of a path. */
  function CanonicalSegment(schema: Schema, path: string): Option<string> {
    SpellingOf(schema, CanonicalPath(path))
  }

  function SpellingOf(schema: Schema, canonical: string): Option<string> {
    if canonical == "" || schema == [] then None else
    var depth := |SplitOn(canonical, '.')|;
    var spellings := Spellings(schema[0].path);
    if Covers(schema[0].path, canonical) && depth <= |spellings| then Some(spellings[depth - 1])
    else SpellingOf(schema[1..], canonical)
  }

  predicate IsGoodName(name: string) {
    name != "" && '.' !in name
  }

  predicate AreGoodNames(names: seq<string>) {
    forall name | name in names :: IsGoodName(name)
  }

  /** A plain key whose name is more than `-` and `_`. */
  predicate IsGoodKey(key: string) {
    IsPlain(Key(key)) && Canonical(key) != ""
  }

  /** A path part by part: plain keys, with or without a `[]` behind them. */
  predicate IsGoodPart(part: string) {
    IsGoodKey(part) || (|part| >= 2 && part[|part| - 2..] == "[]" && IsGoodKey(part[..|part| - 2]))
  }

  predicate IsWellFormed(schema: Schema) {
    forall i | 0 <= i < |schema| :: forall part | part in SplitOn(schema[i].path, '.') :: IsGoodPart(part)
  }

  // Names and paths.

  lemma {:induction false} NamesOfConcat(a: seq<Segment>, b: seq<Segment>)
    ensures NamesOf(a + b) == NamesOf(a) + NamesOf(b)
    decreases |b|
  {
    hide NameOf;
    if b == [] {
      assert a + b == a;
    } else {
      var init := b[..|b| - 1];
      assert (a + b)[..|a + b| - 1] == a + init;
      NamesOfConcat(a, init);
    }
  }

  lemma OneName(segment: Segment)
    ensures NamesOf([segment]) == NameOf(segment)
  {
    assert [segment][..0] == [];
  }

  lemma PlainIsTrimmed(key: string)
    requires '[' !in key
    ensures TrimMarkers(key) == key
  {
    if |key| >= 2 {
      assert key[|key| - 2..][0] == key[|key| - 2];
    }
  }

  lemma {:induction false} CanonicalHasNoDot(key: string)
    requires '.' !in key
    ensures '.' !in Canonical(key)
  {
    if key != "" {
      CanonicalHasNoDot(key[1..]);
    }
  }

  function ChildPath(path: string, key: string): string {
    Extend(path, Key(key))
  }

  lemma NamesOfChild(path: string, key: string)
    requires IsGoodKey(key)
    ensures Names(ChildPath(path, key)) == Names(path) + [Canonical(key)]
    ensures IsGoodName(Canonical(key))
  {
    hide Segments, Canonical;
    SegmentsExtend(path, Key(key));
    NamesOfConcat(Segments(path), [Key(key)]);
    OneName(Key(key));
    PlainIsTrimmed(key);
    CanonicalHasNoDot(key);
  }

  lemma NamesOfMarked(path: string)
    ensures Names(path + "[]") == Names(path)
  {
    hide Segments;
    assert path + "[]" == path + "[" + "]";
    SegmentsWithBracket(path, "]");
    MarkerIsNoName();
    NamesOfConcat(Segments(path), [BracketSegment("]")]);
    OneName(BracketSegment("]"));
  }

  lemma TrimMarked(key: string)
    ensures TrimMarkers(key + "[]") == TrimMarkers(key)
  {
    var part := key + "[]";
    assert part[..|part| - 2] == key && part[|part| - 2..] == "[]";
  }

  lemma NothingToTrim(part: string)
    requires part == ""
    ensures TrimBrackets(part) == "" && TrimMarkers(part) == "" && ParseUsize(part) == None
  {
  }

  lemma ClosingBracket()
    ensures BracketSegment("]") == Key("[" + "]")
  {
    hide ParseUsize, TrimBrackets;
    NothingToTrim("]"[..0]);
    TrimClosing("]");
  }

  lemma TrimClosing(part: string)
    requires |part| == 1 && part[0] == ']'
    ensures TrimBrackets(part) == TrimBrackets(part[..0]) && part[..0] == ""
  {
  }

  lemma MarkerIsNoName()
    ensures NameOf(BracketSegment("]")) == []
  {
    hide BracketSegment, TrimMarkers;
    ClosingBracket();
    TrimMarked("");
    NothingToTrim("");
    assert "" + "[]" == "[" + "]";
  }

  lemma {:induction false} SplitJoin(names: seq<string>)
    requires names != [] && AreGoodNames(names)
    ensures SplitOn(Join(names), '.') == names
  {
    hide SplitOn;
    assert IsGoodName(names[0]);
    NoSuch(names[0], '.');
    if |names| > 1 {
      SplitJoin(names[1..]);
      SplitJoined(names[0], '.', Join(names[1..]));
      assert [names[0]] + names[1..] == names;
    } else {
      assert names == [names[0]];
    }
  }

  lemma {:induction false} JoinConcat(a: seq<string>, b: seq<string>)
    requires a != [] && b != []
    ensures Join(a + b) == Join(a) + "." + Join(b)
  {
    if |a| == 1 {
      assert (a + b)[1..] == b;
    } else {
      assert (a + b)[1..] == a[1..] + b;
      JoinConcat(a[1..], b);
      Associate(a[0], Join(a[1..]), Join(b));
    }
  }

  lemma Associate(a: string, b: string, c: string)
    ensures a + "." + (b + "." + c) == a + "." + b + "." + c
  {
  }

  /** Comparing canonical paths as strings is comparing their names. */
  lemma CoversExactly(definition: string, names: seq<string>)
    requires names != [] && AreGoodNames(names) && Names(definition) != [] && AreGoodNames(Names(definition))
    ensures Covers(definition, Join(names)) <==> names <= Names(definition)
  {
    hide Names, Join, SplitOn;
    var known := Names(definition);
    SplitJoin(names);
    SplitJoin(known);
    if Join(names) + "." <= Join(known) {
      var rest := Join(known)[|Join(names)| + 1..];
      assert Join(known) == Join(names) + "." + rest;
      SplitJoined(Join(names), '.', rest);
    }
    if names <= known && names != known {
      assert known == names + known[|names|..];
      JoinConcat(names, known[|names|..]);
      assert Join(names) + "." <= Join(names) + "." + Join(known[|names|..]);
    }
  }

  // Well-formed definitions.

  lemma PartNames(part: string)
    requires IsGoodPart(part)
    ensures NamesOf(RawSegments(part)) == [Canonical(TrimMarkers(part))]
    ensures IsGoodKey(TrimMarkers(part)) && IsGoodName(Canonical(TrimMarkers(part)))
  {
    hide Canonical, BracketSegment, RawSegments, NamesOf, TrimMarkers;
    var key := if IsGoodKey(part) then part else part[..|part| - 2];
    PlainIsTrimmed(key);
    TrimMarked(key);
    NoSuch(key, '[');
    RawCases(key);
    OneName(Key(key));
    CanonicalHasNoDot(key);
    if !IsGoodKey(part) {
      assert part == key + "[]" == key + "[" + "]";
      RawWithBracket(key, "]");
      MarkerIsNoName();
      NamesOfConcat([Key(key)], [BracketSegment("]")]);
      OneName(BracketSegment("]"));
    }
  }

  lemma {:induction false} PartsNames(parts: seq<string>)
    requires forall part | part in parts :: IsGoodPart(part)
    ensures |NamesOf(AllRawSegments(parts))| == |parts|
    ensures forall i | 0 <= i < |parts| ::
      NamesOf(AllRawSegments(parts))[i] == Canonical(TrimMarkers(parts[i])) && IsGoodKey(TrimMarkers(parts[i]))
    ensures AreGoodNames(NamesOf(AllRawSegments(parts)))
  {
    hide Canonical, RawSegments, IsGoodPart, TrimMarkers, NamesOf, IsGoodKey;
    NoNames();
    if parts != [] {
      assert IsGoodPart(parts[0]);
      PartNames(parts[0]);
      PartsNames(parts[1..]);
      NamesOfConcat(RawSegments(parts[0]), AllRawSegments(parts[1..]));
      var names := NamesOf(AllRawSegments(parts));
      assert names == [Canonical(TrimMarkers(parts[0]))] + NamesOf(AllRawSegments(parts[1..]));
      forall i | 0 <= i < |parts|
        ensures names[i] == Canonical(TrimMarkers(parts[i])) && IsGoodKey(TrimMarkers(parts[i]))
      {
        if i > 0 {
          assert parts[i] == parts[1..][i - 1];
        }
      }
    }
  }

  lemma NoNames()
    ensures NamesOf([]) == []
  {
  }

  /** The schema spells every name of a well-formed path. */
  lemma DefinitionNames(definition: string)
    requires forall part | part in SplitOn(definition, '.') :: IsGoodPart(part)
    ensures Names(definition) != [] && AreGoodNames(Names(definition))
    ensures |Names(definition)| == |Spellings(definition)|
    ensures forall i | 0 <= i < |Names(definition)| ::
      Names(definition)[i] == Canonical(Spellings(definition)[i]) && IsGoodKey(Spellings(definition)[i])
  {
    hide Canonical, IsGoodPart, TrimMarkers, NamesOf, IsGoodKey, AllRawSegments;
    PartsNames(SplitOn(definition, '.'));
  }

  /** What the schema proposes for a path is another spelling of its last name. */
  lemma {:induction false} SpellingIsSameName(schema: Schema, names: seq<string>)
    requires IsWellFormed(schema) && names != [] && AreGoodNames(names)
    ensures var spelling := SpellingOf(schema, Join(names));
      spelling.Some? ==> IsGoodKey(spelling.value) && Canonical(spelling.value) == names[|names| - 1]
  {
    hide Canonical, Covers, IsGoodPart, IsGoodKey, Join, Names, Spellings, SplitOn;
    SplitJoin(names);
    if schema != [] {
      assert forall part | part in SplitOn(schema[0].path, '.') :: IsGoodPart(part);
      DefinitionNames(schema[0].path);
      CoversExactly(schema[0].path, names);
      SpellingIsSameName(schema[1..], names);
    }
  }
}
