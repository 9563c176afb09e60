/** Property paths such as `proxy.specs[0].container-image` (crates/containerproxy/src/config/tree.rs). */
module ConfigPaths {
  import opened Wrappers
  import opened Decimals

  datatype Segment = Key(name: string) | Index(index: nat)

  const USIZE_LIMIT: nat := 0x1_0000_0000_0000_0000

  /** The place of the first such character; the length if there is none. */
  function IndexOf(text: string, c: char): (k: nat)
    ensures k <= |text|
    ensures k < |text| ==> text[k] == c
    ensures forall i :: 0 <= i < k ==> text[i] != c
  {
    if text == "" || text[0] == c then 0 else 1 + IndexOf(text[1..], c)
  }

  /** Rust's `str::split`. */
  function SplitOn(text: string, c: char): (parts: seq<string>)
    ensures |parts| > 0
    decreases |text|
  {
    var k := IndexOf(text, c);
    if k == |text| then [text] else [text[..k]] + SplitOn(text[k + 1..], c)
  }

  function TrimBrackets(part: string): string {
    if part != "" && part[|part| - 1] == ']' then TrimBrackets(part[..|part| - 1]) else part
  }

  /** Rust's `str::parse::<usize>`. */
  function ParseUsize(text: string): Option<nat> {
    var digits := if text != "" && text[0] == '+' then text[1..] else text;
    if AllDigits(digits) && Decimal(digits) < USIZE_LIMIT then Some(Decimal(digits)) else None
  }

  /** What stands between two brackets: an index, or else a weird key. */
  function BracketSegment(part: string): Segment {
    match ParseUsize(TrimBrackets(part))
    case Some(index) => Index(index)
    case None => Key("[" + part)
  }

  function BracketSegments(parts: seq<string>): seq<Segment> {
    if parts == [] then []
    else (if parts[0] == "" then [] else [BracketSegment(parts[0])]) + BracketSegments(parts[1..])
  }

  /** The segments between two dots. */
  function RawSegments(raw: string): seq<Segment> {
    var bracket := IndexOf(raw, '[');
    if raw == "" then []
    else if bracket == |raw| then [Key(raw)]
    else (if bracket == 0 then [] else [Key(raw[..bracket])]) + BracketSegments(SplitOn(raw[bracket..], '['))
  }

  function AllRawSegments(raws: seq<string>): seq<Segment> {
    if raws == [] then [] else RawSegments(raws[0]) + AllRawSegments(raws[1..])
  }

  function Segments(path: string): seq<Segment> {
    AllRawSegments(SplitOn(path, '.'))
  }

  method ParsePath(path: string) returns (segments: seq<Segment>)
    ensures segments == Segments(path)
  {
    hide RawSegments, AllRawSegments, BracketSegments, BracketSegment, SplitOn, IndexOf;
    segments := [];
    var raws := SplitOn(path, '.');
    NothingYet();
    for r := 0 to |raws|
      invariant segments == AllRawSegments(raws[..r])
    {
      var raw := raws[r];
      ghost var before := segments;
      RawSegmentsSnoc(raws, r);
      RawCases(raw);
      RawParts(raw);
      if raw == "" {
        continue;
      }
      var bracket := IndexOf(raw, '[');
      if bracket < |raw| {
        var name, indexes := raw[..bracket], raw[bracket..];
        if name != "" {
          segments := segments + [Key(name)];
        }
        ghost var named := segments;
        var parts := SplitOn(indexes, '[');
        for p := 0 to |parts|
          invariant segments == named + BracketSegments(parts[..p])
        {
          BracketSegmentsSnoc(parts, p);
          if parts[p] != "" {
            segments := segments + [BracketSegment(parts[p])];
          }
        }
        assert parts[..|parts|] == parts;
        Associate(before, KeyBefore(name), BracketSegments(parts));
      } else {
        segments := segments + [Key(raw)];
      }
    }
    assert raws[..|raws|] == raws;
  }

  lemma NothingYet()
    ensures AllRawSegments([]) == [] && BracketSegments([]) == []
  {
  }

  lemma RawCases(raw: string)
    ensures var bracket := IndexOf(raw, '[');
      RawSegments(raw)
        == if raw == "" then []
           else if bracket == |raw| then [Key(raw)]
           else (if raw[..bracket] == "" then [] else [Key(raw[..bracket])])
                + BracketSegments(SplitOn(raw[bracket..], '['))
  {
  }

  lemma RawSegmentsSnoc(raws: seq<string>, r: nat)
    requires r < |raws|
    ensures AllRawSegments(raws[..r + 1]) == AllRawSegments(raws[..r]) + RawSegments(raws[r])
  {
    hide RawSegments;
    assert raws[..r + 1] == raws[..r] + [raws[r]];
    RawSegmentsConcat(raws[..r], [raws[r]]);
    OneRaw(raws[r]);
  }

  lemma BracketSegmentsSnoc(parts: seq<string>, p: nat)
    requires p < |parts|
    ensures BracketSegments(parts[..p + 1])
         == BracketSegments(parts[..p]) + if parts[p] == "" then [] else [BracketSegment(parts[p])]
  {
    hide BracketSegment;
    assert parts[..p + 1] == parts[..p] + [parts[p]];
    BracketSegmentsConcat(parts[..p], [parts[p]]);
    assert [parts[p]][1..] == [];
  }

  /** A path and one more segment, as `flatten` writes it. */
  function Extend(path: string, segment: Segment): string {
    match segment
    case Key(name) => if path == "" then name else path + "." + name
    case Index(index) => path + "[" + DecimalText(index) + "]"
  }

  function PathText(segments: seq<Segment>): string {
    if segments == [] then "" else Extend(PathText(segments[..|segments| - 1]), segments[|segments| - 1])
  }

  predicate IsPlain(segment: Segment) {
    match segment
    case Key(name) => name != "" && '.' !in name && '[' !in name
    case Index(index) => index < USIZE_LIMIT
  }

  predicate ArePlain(segments: seq<Segment>) {
    forall segment | segment in segments :: IsPlain(segment)
  }

  lemma NoSuch(text: string, c: char)
    requires c !in text
    ensures IndexOf(text, c) == |text| && SplitOn(text, c) == [text]
  {
  }

  lemma {:induction false} IndexOfMore(text: string, c: char, more: string)
    ensures IndexOf(text + more, c)
         == if IndexOf(text, c) < |text| then IndexOf(text, c) else |text| + IndexOf(more, c)
  {
    if text == "" {
      assert text + more == more;
    } else if text[0] != c {
      assert (text + more)[1..] == text[1..] + more;
      IndexOfMore(text[1..], c, more);
    }
  }

  /** Splitting what a separator joins. */
  lemma {:induction false} SplitJoined(text: string, c: char, more: string)
    ensures SplitOn(text + [c] + more, c) == SplitOn(text, c) + SplitOn(more, c)
    decreases |text|
  {
    hide SplitOn;
    var k := IndexOf(text, c);
    IndexOfMore(text, c, [c] + more);
    SplitStep(text, c);
    SplitStep(text + [c] + more, c);
    JoinedSlices(text, c, more, k);
    if k < |text| {
      SplitJoined(text[k + 1..], c, more);
      Regroup([text[..k]], SplitOn(text[k + 1..], c), SplitOn(more, c));
    }
  }

  lemma JoinedSlices(text: string, c: char, more: string, k: nat)
    requires k <= |text|
    ensures var joined := text + [c] + more;
      && joined == text + ([c] + more)
      && joined[..k] == text[..k]
      && (k < |text| ==> joined[k + 1..] == text[k + 1..] + [c] + more)
      && (k == |text| ==> text[..k] == text && joined[k + 1..] == more)
  {
  }

  lemma Regroup(a: seq<string>, b: seq<string>, c: seq<string>)
    ensures a + (b + c) == (a + b) + c
  {
  }

  /** Splitting with more at the end. */
  lemma {:induction false} SplitExtended(text: string, c: char, more: string)
    requires c !in more
    ensures var parts := SplitOn(text, c);
      SplitOn(text + more, c) == parts[..|parts| - 1] + [parts[|parts| - 1] + more]
    decreases |text|
  {
    hide SplitOn;
    var k := IndexOf(text, c);
    IndexOfMore(text, c, more);
    NoSuch(more, c);
    SplitStep(text, c);
    SplitStep(text + more, c);
    if k < |text| {
      assert (text + more)[..k] == text[..k] && (text + more)[k + 1..] == text[k + 1..] + more;
      SplitExtended(text[k + 1..], c, more);
      LastOfMore([text[..k]], SplitOn(text[k + 1..], c), more);
    }
  }

  lemma SplitStep(text: string, c: char)
    ensures var k := IndexOf(text, c);
      SplitOn(text, c) == if k == |text| then [text] else [text[..k]] + SplitOn(text[k + 1..], c)
  {
    hide IndexOf;
  }

  lemma LastOfMore(first: seq<string>, rest: seq<string>, more: string)
    requires rest != []
    ensures var parts := first + rest;
      first + (rest[..|rest| - 1] + [rest[|rest| - 1] + more]) == parts[..|parts| - 1] + [parts[|parts| - 1] + more]
  {
  }

  lemma {:induction false} RawSegmentsConcat(a: seq<string>, b: seq<string>)
    ensures AllRawSegments(a + b) == AllRawSegments(a) + AllRawSegments(b)
  {
    hide RawSegments;
    if a == [] {
      assert a + b == b;
    } else {
      assert (a + b)[1..] == a[1..] + b;
      RawSegmentsConcat(a[1..], b);
    }
  }

  lemma {:induction false} BracketSegmentsConcat(a: seq<string>, b: seq<string>)
    ensures BracketSegments(a + b) == BracketSegments(a) + BracketSegments(b)
  {
    hide BracketSegment;
    if a == [] {
      assert a + b == b;
    } else {
      assert (a + b)[1..] == a[1..] + b;
      BracketSegmentsConcat(a[1..], b);
    }
  }

  /** Paths behind each other. */
  lemma SegmentsJoined(path: string, more: string)
    ensures Segments(path + "." + more) == Segments(path) + Segments(more)
  {
    hide SplitOn, AllRawSegments;
    SplitJoined(path, '.', more);
    RawSegmentsConcat(SplitOn(path, '.'), SplitOn(more, '.'));
  }

  /** A key behind a dot. */
  lemma SegmentsWithKey(path: string, name: string)
    requires IsPlain(Key(name))
    ensures Segments(path + "." + name) == Segments(path) + [Key(name)]
    ensures Segments(name) == [Key(name)]
  {
    SplitJoined(path, '.', name);
    NoSuch(name, '.');
    NoSuch(name, '[');
    RawSegmentsConcat(SplitOn(path, '.'), [name]);
    OneRaw(name);
  }

  lemma OneRaw(raw: string)
    ensures AllRawSegments([raw]) == RawSegments(raw)
  {
    assert [raw][1..] == [];
  }

  lemma OneBracket(part: string)
    requires part != ""
    ensures BracketSegments([part]) == [BracketSegment(part)]
  {
    assert [part][1..] == [];
  }

  /** Something in brackets. */
  lemma RawWithBracket(raw: string, part: string)
    requires part != "" && '[' !in part
    ensures RawSegments(raw + "[" + part) == RawSegments(raw) + [BracketSegment(part)]
  {
    hide BracketSegment, SplitOn, BracketSegments, RawSegments, IndexOf;
    var extended, k := raw + "[" + part, IndexOf(raw, '[');
    BracketBehind(raw, part);
    RawParts(raw);
    RawParts(extended);
    NoSuch(part, '[');
    OneBracket(part);
    SplitJoined(raw[k..], '[', part);
    BracketSegmentsConcat(SplitOn(raw[k..], '['), [part]);
    Associate(KeyBefore(raw[..k]), BracketSegments(SplitOn(raw[k..], '[')), [BracketSegment(part)]);
  }

  function KeyBefore(name: string): seq<Segment> {
    if name == "" then [] else [Key(name)]
  }

  /** The key and what stands in brackets, whether there is either or not. */
  lemma RawParts(raw: string)
    ensures var k := IndexOf(raw, '[');
      RawSegments(raw) == KeyBefore(raw[..k]) + BracketSegments(SplitOn(raw[k..], '['))
  {
    hide IndexOf, BracketSegments, SplitOn;
    RawCases(raw);
    var k := IndexOf(raw, '[');
    if k == |raw| {
      assert raw[k..] == "" && raw[..k] == raw;
      NothingSplit();
    }
  }

  /** One more bracket leaves the first one where it is. */
  lemma BracketBehind(raw: string, part: string)
    ensures var extended, k := raw + "[" + part, IndexOf(raw, '[');
      IndexOf(extended, '[') == k && extended[..k] == raw[..k] && extended[k..] == raw[k..] + "[" + part
  {
    var extended := raw + "[" + part;
    assert extended == raw + ("[" + part);
    IndexOfMore(raw, '[', "[" + part);
  }

  lemma Associate(a: seq<Segment>, b: seq<Segment>, c: seq<Segment>)
    ensures a + (b + c) == (a + b) + c
  {
  }

  lemma NothingSplit()
    ensures BracketSegments(SplitOn("", '[')) == []
  {
    assert SplitOn("", '[') == [""] && [""][1..] == [];
  }

  lemma SegmentsWithBracket(path: string, part: string)
    requires part != "" && '[' !in part && '.' !in part
    ensures Segments(path + "[" + part) == Segments(path) + [BracketSegment(part)]
  {
    hide RawSegments, BracketSegment;
    var parts := SplitOn(path, '.');
    var init, last := parts[..|parts| - 1], parts[|parts| - 1];
    assert path + "[" + part == path + ("[" + part);
    SplitExtended(path, '.', "[" + part);
    assert last + ("[" + part) == last + "[" + part;
    RawWithBracket(last, part);
    assert parts == init + [last];
    RawSegmentsConcat(init, [last]);
    RawSegmentsConcat(init, [last + "[" + part]);
    OneRaw(last);
    OneRaw(last + "[" + part);
  }

  lemma IndexText(index: nat)
    requires index < USIZE_LIMIT
    ensures var part := DecimalText(index) + "]";
      '[' !in part && '.' !in part && BracketSegment(part) == Index(index)
  {
    var digits := DecimalText(index);
    var part := digits + "]";
    assert part[..|part| - 1] == digits;
    assert IsDigit(digits[|digits| - 1]) && IsDigit(digits[0]);
    assert forall i :: 0 <= i < |part| ==> IsDigit(part[i]) || part[i] == ']';
    assert TrimBrackets(digits) == digits;
    assert TrimBrackets(part) == digits;
    DecimalRoundTrip(index);
    assert ParseUsize(digits) == Some(index);
  }

  predicate AreClosing(brackets: string) {
    forall i | 0 <= i < |brackets| :: brackets[i] == ']'
  }

  lemma {:induction false} BracketsAreTrimmed(inside: string, closing: string)
    requires inside == "" || inside[|inside| - 1] != ']'
    requires AreClosing(closing)
    ensures TrimBrackets(inside + closing) == inside
  {
    if closing != "" {
      var part := inside + closing;
      assert part[..|part| - 1] == inside + closing[..|closing| - 1];
      assert part[|part| - 1] == closing[|closing| - 1];
      BracketsAreTrimmed(inside, closing[..|closing| - 1]);
    } else {
      assert inside + closing == inside;
    }
  }

  /** Decimal digits behind a bracket are an index if they are below 2^64, with a plus before them or without. */
  lemma IndexIsRead(path: string, digits: string, closing: string)
    requires AllDigits(digits) && AreClosing(closing)
    ensures Segments(path + "[" + (digits + closing))
         == Segments(path) + [if Decimal(digits) < 0x1_0000_0000_0000_0000 then Index(Decimal(digits))
                              else Key("[" + (digits + closing))]
    ensures Segments(path + "[" + ("+" + digits + closing))
         == Segments(path) + [if Decimal(digits) < 0x1_0000_0000_0000_0000 then Index(Decimal(digits))
                              else Key("[" + ("+" + digits + closing))]
  {
    hide Segments, TrimBrackets, Decimal;
    var signed := "+" + digits;
    assert IsDigit(digits[|digits| - 1]) && IsDigit(digits[0]);
    assert signed[1..] == digits && signed[|signed| - 1] == digits[|digits| - 1];
    BracketsAreTrimmed(digits, closing);
    BracketsAreTrimmed(signed, closing);
    SegmentsWithBracket(path, digits + closing);
    SegmentsWithBracket(path, signed + closing);
  }

  /** What is no number there is a key, with its brackets. */
  lemma OddKeyIsRead(path: string, inside: string, closing: string)
    requires '[' !in inside && '.' !in inside && inside + closing != ""
    requires !AllDigits(inside) && !(inside != "" && inside[0] == '+' && AllDigits(inside[1..]))
    requires (inside == "" || inside[|inside| - 1] != ']') && AreClosing(closing)
    ensures Segments(path + "[" + (inside + closing)) == Segments(path) + [Key("[" + (inside + closing))]
  {
    hide Segments, TrimBrackets, Decimal;
    BracketsAreTrimmed(inside, closing);
    SegmentsWithBracket(path, inside + closing);
  }

  /** Writing one more segment and reading it. */
  lemma SegmentsExtend(path: string, segment: Segment)
    requires IsPlain(segment)
    ensures Segments(Extend(path, segment)) == Segments(path) + [segment]
  {
    match segment
    case Key(name) =>
      SegmentsWithKey(path, name);
      assert Segments("") == [] by {
        OneRaw("");
        NoSuch("", '.');
      }
    case Index(index) =>
      IndexText(index);
      var part := DecimalText(index) + "]";
      SegmentsWithBracket(path, part);
      assert path + "[" + DecimalText(index) + "]" == path + "[" + part;
  }

  /** Reading a path that was written gives its segments. */
  lemma {:induction false} PathRoundTrip(segments: seq<Segment>)
    requires ArePlain(segments)
    ensures Segments(PathText(segments)) == segments
  {
    hide Segments, Extend;
    if segments == [] {
      NothingInPath();
    } else {
      var init, last := segments[..|segments| - 1], segments[|segments| - 1];
      PathRoundTrip(init);
      SegmentsExtend(PathText(init), last);
      assert segments == init + [last];
    }
  }

  lemma NothingInPath()
    ensures Segments("") == []
  {
    OneRaw("");
    NoSuch("", '.');
  }
}
