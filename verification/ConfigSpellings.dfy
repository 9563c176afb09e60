/**
 How names are compared and which spelling a key gets when a tree is normalised
 (crates/containerproxy/src/config/tree.rs, schema.rs and loader.rs), without the functions that find it.
 */
module ConfigSpellings {
  import opened Wrappers
  import opened Decimals
  import opened ConfigPaths
  import opened ConfigTree
  import opened ConfigLayers
  import opened ConfigSchema
  import opened ConfigNormalize
  import opened ConfigNormalForm

  // Names.

  lemma {:induction false} CanonicalConcat(a: string, b: string)
    ensures Canonical(a + b) == Canonical(a) + Canonical(b)
  {
    hide Ascii.LowerCase;
    if a != "" {
      assert (a + b)[1..] == a[1..] + b;
      CanonicalConcat(a[1..], b);
    } else {
      assert a + b == b;
    }
  }

  lemma CanonicalInside(a: string, middle: string, b: string)
    ensures Canonical(a + middle + b) == Canonical(a) + Canonical(middle) + Canonical(b)
  {
    hide Canonical;
    CanonicalConcat(a + middle, b);
    CanonicalConcat(a, middle);
  }

  /** A `-` or `_` anywhere makes no difference. */
  lemma MarksAreIgnored(a: string, b: string)
    ensures SameName(a + "-" + b, a + b) && SameName(a + "_" + b, a + b)
  {
    CanonicalInside(a, "-", b);
    CanonicalInside(a, "_", b);
    CanonicalConcat(a, b);
    OnlyMark("-");
    OnlyMark("_");
  }

  lemma OnlyMark(mark: string)
    requires mark == "-" || mark == "_"
    ensures Canonical(mark) == ""
  {
    assert mark[1..] == "";
  }

  /** The same letter, in capitals or not. */
  predicate SameLetter(c: char, d: char) {
    || c == d
    || ('A' <= c <= 'Z' && d as int - 'a' as int == c as int - 'A' as int)
    || ('A' <= d <= 'Z' && c as int - 'a' as int == d as int - 'A' as int)
  }

  predicate HasNoMark(name: string) {
    '-' !in name && '_' !in name
  }

  /** Apart from that, names are the same when they have the same letters. */
  lemma {:induction false} LettersDecide(a: string, b: string)
    requires HasNoMark(a) && HasNoMark(b)
    ensures SameName(a, b) <==> |a| == |b| && forall i | 0 <= i < |a| :: SameLetter(a[i], b[i])
  {
    hide Ascii.LowerCase, SameLetter;
    CanonicalLength(a);
    CanonicalLength(b);
    if a != "" && b != "" {
      LettersDecide(a[1..], b[1..]);
      OneLetter(a[0], b[0]);
      assert Canonical(a)[0] == Ascii.LowerCase(a[0]) && Canonical(b)[0] == Ascii.LowerCase(b[0]);
      assert Canonical(a)[1..] == Canonical(a[1..]) && Canonical(b)[1..] == Canonical(b[1..]);
      forall i | 1 <= i < |a| && |a| == |b|
        ensures a[i] == a[1..][i - 1] && b[i] == b[1..][i - 1]
      {
      }
    }
  }

  lemma OneLetter(c: char, d: char)
    ensures Ascii.LowerCase(c) == Ascii.LowerCase(d) <==> SameLetter(c, d)
  {
  }

  lemma {:induction false} CanonicalLength(name: string)
    requires HasNoMark(name)
    ensures |Canonical(name)| == |name|
  {
    if name != "" {
      CanonicalLength(name[1..]);
    }
  }

  // Definitions.

  /** The definition is the first whose names begin with these. */
  predicate IsFirstBelow(schema: Schema, i: nat, names: seq<string>) {
    && i < |schema| && names <= Names(schema[i].path)
    && forall j | 0 <= j < i :: !(names <= Names(schema[j].path))
  }

  predicate IsFirstNamed(schema: Schema, i: nat, names: seq<string>) {
    && i < |schema| && names == Names(schema[i].path)
    && forall j | 0 <= j < i :: names != Names(schema[j].path)
  }

  lemma DefinitionIsCovered(schema: Schema, names: seq<string>)
    requires IsWellFormed(schema) && schema != [] && names != [] && AreGoodNames(names)
    ensures Covers(schema[0].path, Join(names)) <==> names <= Names(schema[0].path)
    ensures |Names(schema[0].path)| == |Spellings(schema[0].path)|
    ensures AreGoodNames(Names(schema[0].path)) && Names(schema[0].path) != []
    ensures IsWellFormed(schema[1..])
  {
    hide Covers, IsGoodPart, Names, Spellings, SplitOn, Join;
    assert forall part | part in SplitOn(schema[0].path, '.') :: IsGoodPart(part);
    DefinitionNames(schema[0].path);
    CoversExactly(schema[0].path, names);
  }

  lemma {:induction false} FirstDecides(schema: Schema, i: nat, names: seq<string>)
    requires IsWellFormed(schema) && names != [] && AreGoodNames(names) && IsFirstBelow(schema, i, names)
    ensures |names| <= |Spellings(schema[i].path)|
    ensures SpellingOf(schema, Join(names)) == Some(Spellings(schema[i].path)[|names| - 1])
  {
    hide Covers, IsGoodPart, Names, Spellings, SplitOn, Join, IsWellFormed;
    SplitJoin(names);
    NotEmpty(names);
    DefinitionIsCovered(schema, names);
    if i > 0 {
      assert !(names <= Names(schema[0].path));
      assert schema[1..][i - 1] == schema[i];
      FirstDecides(schema[1..], i - 1, names);
    }
  }

  lemma NotEmpty(names: seq<string>)
    requires names != [] && AreGoodNames(names)
    ensures Join(names) != ""
  {
    assert IsGoodName(names[0]);
  }

  lemma {:induction false} NoneDecides(schema: Schema, names: seq<string>)
    requires IsWellFormed(schema) && names != [] && AreGoodNames(names)
    requires forall j | 0 <= j < |schema| :: !(names <= Names(schema[j].path))
    ensures SpellingOf(schema, Join(names)) == None
  {
    hide Covers, IsGoodPart, Names, Spellings, SplitOn, Join, IsWellFormed;
    if schema != [] {
      DefinitionIsCovered(schema, names);
      NoneDecides(schema[1..], names);
    }
  }

  lemma {:induction false} FoundIsFirst(schema: Schema, names: seq<string>)
    requires IsWellFormed(schema) && names != [] && AreGoodNames(names)
    ensures FindCanonical(schema, Join(names)).Some?
       <==> exists i: nat :: IsFirstNamed(schema, i, names)
    ensures forall i: nat | IsFirstNamed(schema, i, names) :: FindCanonical(schema, Join(names)) == Some(schema[i])
  {
    hide Covers, IsGoodPart, Names, Spellings, SplitOn, Join, IsWellFormed;
    if schema != [] {
      DefinitionIsCovered(schema, names);
      SplitJoin(names);
      SplitJoin(Names(schema[0].path));
      if names == Names(schema[0].path) {
        assert IsFirstNamed(schema, 0, names);
      } else {
        var rest := schema[1..];
        FoundIsFirst(rest, names);
        forall i: nat
          ensures IsFirstNamed(schema, i + 1, names) <==> IsFirstNamed(rest, i, names)
        {
          LaterIsFirst(schema, i, names);
        }
        forall i: nat | IsFirstNamed(schema, i, names)
          ensures i > 0 && IsFirstNamed(rest, i - 1, names) && rest[i - 1] == schema[i]
        {
          LaterIsFirst(schema, i - 1, names);
        }
      }
    }
  }

  lemma LaterIsFirst(schema: Schema, i: nat, names: seq<string>)
    requires schema != [] && names != Names(schema[0].path)
    ensures IsFirstNamed(schema, i + 1, names) <==> IsFirstNamed(schema[1..], i, names)
  {
    hide Names;
    var rest := schema[1..];
    assert forall j | 0 <= j < |rest| :: rest[j] == schema[j + 1];
    if IsFirstNamed(rest, i, names) {
      forall j | 0 <= j < i + 1
        ensures names != Names(schema[j].path)
      {
        assert j > 0 ==> schema[j] == rest[j - 1];
      }
    }
  }

  /** A part of a path is spelled without the `[]` behind it. */
  predicate IsSpelling(definition: string, k: nat, spelling: string) {
    && k < |SplitOn(definition, '.')| && IsGoodKey(spelling)
    && var part := SplitOn(definition, '.')[k];
       part == spelling || part == spelling + "[]"
  }

  lemma SpelledPart(definition: string, k: nat)
    requires forall part | part in SplitOn(definition, '.') :: IsGoodPart(part)
    requires k < |Spellings(definition)|
    ensures IsSpelling(definition, k, Spellings(definition)[k])
  {
    hide Canonical, SplitOn, TrimMarkers, IsGoodKey;
    var part := SplitOn(definition, '.')[k];
    assert part in SplitOn(definition, '.');
    var key := if IsGoodKey(part) then part else part[..|part| - 2];
    assert IsGoodKey(key) && (part == key || part == key + "[]");
    GoodKeyIsTrimmed(key);
    TrimMarked(key);
  }

  lemma GoodKeyIsTrimmed(key: string)
    requires IsGoodKey(key)
    ensures TrimMarkers(key) == key
  {
    hide TrimMarkers, Canonical;
    PlainIsTrimmed(key);
  }

  /**
   A key that the schema knows, as a property or on the way to one, is afterwards found exactly as the first such
   property spells it. What is below a free-form map stays as it is, all else is normalised in turn.
   */
  lemma KnownKeysAreSpelled(schema: Schema, path: string, entries: seq<Entry>, entry: Entry, i: nat)
    requires IsContext(schema, path) && HaveGoodKeys(entries) && entry in entries
    requires IsFirstBelow(schema, i, Names(ChildPath(path, entry.key)))
    ensures var k := |Names(ChildPath(path, entry.key))| - 1;
      && 0 <= k < |Spellings(schema[i].path)|
      && var spelling := Spellings(schema[i].path)[k];
         && IsSpelling(schema[i].path, k, spelling)
         && Entry(spelling, if IsFreeForm(schema, path, entry.key) then entry.value
                            else Normalize(schema, entry.value, ChildPath(path, spelling)))
            in Normalize(schema, Object(entries), path).entries
  {
    hide Names, SplitOn, Spellings, IsGoodKey, Canonical, Join, Normalize, IsGoodPart, ChildPath, IsFreeForm;
    hide IsSpelling;
    var names := Names(ChildPath(path, entry.key));
    NamesOfChild(path, entry.key);
    FirstDecides(schema, i, names);
    SpelledPart(schema[i].path, |names| - 1);
    EntriesAreRenamed(schema, path, entries);
    assert Renamed(schema, path, entry).key == Spellings(schema[i].path)[|names| - 1];
  }

  /** A key that it does not know is left as it is. */
  lemma UnknownKeysAreKept(schema: Schema, path: string, entries: seq<Entry>, entry: Entry)
    requires IsContext(schema, path) && HaveGoodKeys(entries) && entry in entries
    requires var names := Names(ChildPath(path, entry.key));
      forall j | 0 <= j < |schema| :: !(names <= Names(schema[j].path))
    ensures var value := if IsFreeForm(schema, path, entry.key) then entry.value
                         else Normalize(schema, entry.value, ChildPath(path, entry.key));
      Entry(entry.key, value) in Normalize(schema, Object(entries), path).entries
  {
    hide Names, SplitOn, Spellings, IsGoodKey, Canonical, Join, Normalize, IsWellFormed, ChildPath, IsFreeForm;
    var names := Names(ChildPath(path, entry.key));
    NamesOfChild(path, entry.key);
    NoneDecides(schema, names);
    EntriesAreRenamed(schema, path, entries);
    assert Renamed(schema, path, entry).key == entry.key;
  }

  /** A map is free-form exactly when the first property of its name says so. */
  lemma FreeFormExactly(schema: Schema, path: string, key: string)
    requires IsContext(schema, path) && IsGoodKey(key)
    ensures IsFreeForm(schema, path, key)
       <==> exists i: nat :: IsFirstNamed(schema, i, Names(path) + [Canonical(key)]) && schema[i].isMap
  {
    hide Names, SplitOn, Spellings, IsGoodKey, Canonical, Join, IsWellFormed, ChildPath, FindCanonical;
    var names := Names(ChildPath(path, key));
    NamesOfChild(path, key);
    FoundIsFirst(schema, names);
  }

  /** An index adds no name to a path, as `[]` does not. */
  lemma IndexesAreNoNames(path: string, index: nat)
    requires index < 0x1_0000_0000_0000_0000
    ensures Names(path + "[" + DecimalText(index) + "]") == Names(path)
  {
    hide Segments;
    SegmentsExtend(path, Index(index));
    NamesOfConcat(Segments(path), [Index(index)]);
    OneName(Index(index));
  }
}
