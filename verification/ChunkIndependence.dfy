/**
 For which documents the script goes to the same place however the document is cut into chunks
 (crates/containerproxy/src/dataplane/inject.rs): exactly for the documents that are `Safe`.
 */
module ChunkIndependence {
  import opened Wrappers
  import opened TextSearch
  import opened Utf8
  import opened ScriptPlacement
  import opened ScriptInjection
  import opened ScriptChunks

  /** Where the script goes when the whole text comes in one chunk. */
  function WholePlace(text: string): nat {
    if Place(text).Some? then Place(text).value else |text|
  }

  /** The tag that ends at `end` is `<head >` or `<head x>`: short enough never to be sent on before it ends. */
  predicate EndsShortTag(text: string, end: nat)
    requires end <= |text|
  {
    || (end >= 7 && Occurs(text, HEAD_WITH_ATTRIBUTES, end - 7, end))
    || (end >= 8 && Occurs(text, HEAD_WITH_ATTRIBUTES, end - 8, end))
  }

  /** Everything found after `end` leads to `end` as well. */
  predicate NothingElseAfter(text: string, end: nat)
    requires end <= |text|
  {
    && TagEnd(text, end, |text|).None?
    && (if Find(text, BODY_END).Some? then Find(text, BODY_END) == Some(end) else end == |text|)
  }

  /** Nothing that could take the script is complete before the marker that should take it, and that
      marker is not a long `<head ...>` tag, which is forgotten when it is split. */
  predicate Safe(text: string) {
    var body := Find(text, BODY_END);
    var tag := TagEnd(text, 0, |text|);
    match Find(text, HEAD)
    case Some(head) =>
      && (body.Some? ==> body.value + |BODY_END| >= head + |HEAD|)
      && (tag.Some? ==> tag.value >= head + |HEAD|)
    case None =>
      tag.Some? ==>
        && (body.Some? ==> body.value >= tag.value)
        && (EndsShortTag(text, tag.value) || NothingElseAfter(text, tag.value))
  }

  /** The length of the shortest beginning of a safe text with which the script must have been put in;
      more than the text has if it goes to the end. */
  function Deadline(text: string): nat {
    var body := Find(text, BODY_END);
    var tag := TagEnd(text, 0, |text|);
    match Find(text, HEAD)
    case Some(head) => head + |HEAD|
    case None =>
      if tag.Some? && EndsShortTag(text, tag.value) then tag.value
      else if body.Some? then body.value + |BODY_END|
      else |text| + 1
  }

  // Markers in a stretch of the text.

  lemma FoundInside(text: string, marker: string, start: nat, end: nat)
    requires start <= end <= |text|
    ensures Find(text, marker).None? ==> FindIn(text, marker, start, end) == None
    ensures FindIn(text, marker, start, end).Some? ==>
      Find(text, marker).Some? && Find(text, marker).value <= FindIn(text, marker, start, end).value
    ensures (var first := Find(text, marker); first.Some? && start <= first.value && first.value + |marker| <= end) ==>
      FindIn(text, marker, start, end) == Find(text, marker)
    ensures Find(text, marker).Some? && end < Find(text, marker).value + |marker| ==>
      FindIn(text, marker, start, end) == None
  {
    hide FindIn;
    var inside := FindIn(text, marker, start, end);
    var first := FindIn(text, marker, 0, |text|);
    if inside.Some? {
      assert Occurs(text, marker, inside.value, |text|);
    }
    if first.Some? && start <= first.value && first.value + |marker| <= end {
      assert Occurs(text, marker, first.value, end);
    }
  }

  /** A closed tag in a stretch ends no earlier than the first one of the text. */
  lemma TagInside(text: string, start: nat, end: nat)
    requires start <= end <= |text|
    ensures TagEnd(text, start, end).Some? ==>
      TagEnd(text, 0, |text|).Some? && TagEnd(text, 0, |text|).value <= TagEnd(text, start, end).value
  {
    hide Occurs, FindIn;
    var tag := FindIn(text, HEAD_WITH_ATTRIBUTES, start, end);
    if tag.Some? && FindIn(text, ">", tag.value, end).Some? {
      var close := FindIn(text, ">", tag.value, end).value;
      OccursLater(text, HEAD_WITH_ATTRIBUTES, tag.value, end);
      OccursLater(text, ">", close, end);
      var first := FindIn(text, HEAD_WITH_ATTRIBUTES, 0, |text|);
      assert first.value <= tag.value;
      assert FindIn(text, ">", first.value, |text|).value <= close;
    }
  }

  lemma OccursLater(text: string, marker: string, at: nat, end: nat)
    requires end <= |text| && Occurs(text, marker, at, end)
    ensures Occurs(text, marker, at, |text|)
  {
  }

  /** In a stretch with a tag start in front of the first tag's end, that end is found. */
  lemma TagStillOpen(text: string, start: nat, end: nat, at: nat)
    requires start <= at && TagEnd(text, 0, |text|).Some?
    requires var first := TagEnd(text, 0, |text|).value; at < first <= end <= |text|
    requires Occurs(text, HEAD_WITH_ATTRIBUTES, at, end)
    ensures TagEnd(text, start, end) == TagEnd(text, 0, |text|)
  {
    hide Occurs, FindIn;
    var end0 := TagEnd(text, 0, |text|).value;
    var first := FindIn(text, HEAD_WITH_ATTRIBUTES, 0, |text|).value;
    var tag := FindIn(text, HEAD_WITH_ATTRIBUTES, start, end);
    assert tag.value <= at;
    OccursLater(text, HEAD_WITH_ATTRIBUTES, tag.value, end);
    assert first <= tag.value;
    BracketAt(text, end0 - 1, end);
    var close := FindIn(text, ">", tag.value, end);
    assert close.value <= end0 - 1;
    OccursLater(text, ">", close.value, end);
  }

  lemma BracketAt(text: string, at: nat, end: nat)
    requires at < end <= |text| && text[at] == '>'
    ensures Occurs(text, ">", at, end)
  {
  }

  /** In a stretch without a tag start in front of the first tag's end, that end is not found. */
  lemma TagForgotten(text: string, start: nat, end: nat, first: nat)
    requires start <= end <= |text| && TagEnd(text, start, end).Some?
    requires forall at | start <= at < first :: !Occurs(text, HEAD_WITH_ATTRIBUTES, at, end)
    ensures TagEnd(text, start, end).value > first
  {
    hide Occurs, FindIn;
  }

  /** Then there is another closed tag behind it. */
  lemma TagBehind(text: string, start: nat, end: nat, first: nat)
    requires start <= end <= |text| && first <= |text| && TagEnd(text, start, end).Some?
    requires forall at | start <= at < first :: !Occurs(text, HEAD_WITH_ATTRIBUTES, at, end)
    ensures TagEnd(text, first, |text|).Some?
  {
    hide Occurs, FindIn;
    var tag := FindIn(text, HEAD_WITH_ATTRIBUTES, start, end).value;
    var close := FindIn(text, ">", tag, end).value;
    OccursLater(text, HEAD_WITH_ATTRIBUTES, tag, end);
    OccursLater(text, ">", close, end);
    var next := FindIn(text, HEAD_WITH_ATTRIBUTES, first, |text|).value;
    assert next <= tag;
    assert FindIn(text, ">", next, |text|).Some?;
  }

  lemma OccursSooner(text: string, marker: string, at: nat, end: nat, later: nat)
    requires end <= later <= |text| && Occurs(text, marker, at, end)
    ensures Occurs(text, marker, at, later)
  {
  }

  // A safe text: every stretch that a run looks at leads to the same place.

  /** A stretch that starts at least a marker's length before what has been read. */
  predicate IsStretch(text: string, start: nat, read: nat, end: nat) {
    start <= read <= end <= |text| && (start == 0 || start + MAX_MARKER_LENGTH <= read)
  }

  lemma StretchWithHead(text: string, start: nat, read: nat, end: nat)
    requires Safe(text) && Find(text, HEAD).Some? && IsStretch(text, start, read, end) && read < Deadline(text)
    ensures PlaceIn(text, start, end) == if end < Deadline(text) then None else Some(WholePlace(text))
  {
    hide Occurs, FindIn, TagEnd;
    FoundInside(text, HEAD, start, end);
    TagInside(text, start, end);
    FoundInside(text, BODY_END, start, end);
  }

  lemma StretchWithShortTag(text: string, start: nat, read: nat, end: nat)
    requires Safe(text) && Find(text, HEAD).None? && TagEnd(text, 0, |text|).Some?
    requires EndsShortTag(text, TagEnd(text, 0, |text|).value)
    requires IsStretch(text, start, read, end) && read < Deadline(text)
    ensures PlaceIn(text, start, end) == if end < Deadline(text) then None else Some(WholePlace(text))
  {
    hide Occurs, FindIn, TagEnd;
    var close := TagEnd(text, 0, |text|).value;
    FoundInside(text, HEAD, start, end);
    TagInside(text, start, end);
    FoundInside(text, BODY_END, start, end);
    if close <= end {
      var at := if close >= 8 && Occurs(text, HEAD_WITH_ATTRIBUTES, close - 8, close) then close - 8 else close - 7;
      OccursSooner(text, HEAD_WITH_ATTRIBUTES, at, close, end);
      TagStillOpen(text, start, end, at);
    }
  }

  lemma StretchWithLongTag(text: string, start: nat, read: nat, end: nat)
    requires Safe(text) && Find(text, HEAD).None? && TagEnd(text, 0, |text|).Some?
    requires !EndsShortTag(text, TagEnd(text, 0, |text|).value)
    requires IsStretch(text, start, read, end) && read < Deadline(text)
    ensures PlaceIn(text, start, end) in {None, Some(WholePlace(text))}
    ensures end >= Deadline(text) ==> PlaceIn(text, start, end).Some?
  {
    hide Occurs, FindIn, TagEnd, EndsShortTag;
    var close := TagEnd(text, 0, |text|).value;
    FoundInside(text, HEAD, start, end);
    FoundInside(text, BODY_END, start, end);
    if TagEnd(text, start, end).Some? {
      TagInside(text, start, end);
      if at :| start <= at < close && Occurs(text, HEAD_WITH_ATTRIBUTES, at, end) {
        TagStillOpen(text, start, end, at);
      } else {
        TagBehind(text, start, end, close);
      }
    }
  }

  lemma StretchWithoutTag(text: string, start: nat, read: nat, end: nat)
    requires Safe(text) && Find(text, HEAD).None? && TagEnd(text, 0, |text|).None?
    requires IsStretch(text, start, read, end) && read < Deadline(text)
    ensures PlaceIn(text, start, end) == if end < Deadline(text) then None else Some(WholePlace(text))
  {
    hide Occurs, FindIn, TagEnd;
    FoundInside(text, HEAD, start, end);
    TagInside(text, start, end);
    FoundInside(text, BODY_END, start, end);
  }

  lemma StretchOfSafe(text: string, start: nat, read: nat, end: nat)
    requires Safe(text) && IsStretch(text, start, read, end) && read < Deadline(text)
    ensures PlaceIn(text, start, end) in {None, Some(WholePlace(text))}
    ensures end >= Deadline(text) ==> PlaceIn(text, start, end).Some?
  {
    hide PlaceIn, TagEnd, Find, EndsShortTag, Safe, Deadline, WholePlace;
    if Find(text, HEAD).Some? {
      StretchWithHead(text, start, read, end);
    } else if TagEnd(text, 0, |text|).None? {
      StretchWithoutTag(text, start, read, end);
    } else if EndsShortTag(text, TagEnd(text, 0, |text|).value) {
      StretchWithShortTag(text, start, read, end);
    } else {
      StretchWithLongTag(text, start, read, end);
    }
  }

  lemma EndOfSafe(text: string)
    requires Safe(text) && |text| < Deadline(text)
    ensures WholePlace(text) == |text|
  {
    hide Occurs, FindIn, TagEnd, EndsShortTag;
  }

  lemma PlaceInPrefix(text: string, start: nat, end: nat)
    requires start <= end <= |text|
    ensures PlaceIn(text[..end], start, end) == PlaceIn(text, start, end)
  {
    hide Occurs, FindIn;
    assert text[..end] == text[0..end];
    FindInStretch(text, HEAD, 0, start, end);
    FindInStretch(text, HEAD_WITH_ATTRIBUTES, 0, start, end);
    FindInStretch(text, BODY_END, 0, start, end);
    var tag := FindIn(text, HEAD_WITH_ATTRIBUTES, start, end);
    if tag.Some? {
      FindInStretch(text, ">", 0, tag.value, end);
    }
  }

  ghost predicate AreText(chunks: seq<string>) {
    forall chunk :: chunk in chunks ==> IsUtf8(chunk)
  }

  /** The place found with the next chunk, as a place in the whole document. */
  lemma NextPlace(document: string, read: nat, chunk: string)
    requires read + |chunk| <= |document| && chunk == document[read..read + |chunk|]
    ensures var end := read + |chunk|;
      var start := Keep(document[..read]);
      && document[..read] + chunk == document[..end]
      && IsStretch(Lower(document), start, read, end)
      && PlaceIn(Lower(document[..end]), start, end) == PlaceIn(Lower(document), start, end)
  {
    hide PlaceIn;
    var end := read + |chunk|;
    PlaceInPrefix(Lower(document), Keep(document[..read]), end);
    assert Lower(document[..end]) == Lower(document)[..end];
  }

  /** Whatever the chunks are, a run over a safe document puts the script nowhere else; it leaves it out only
      for a chunk that is not text. */
  lemma {:induction false} RunOverSafe(document: string, read: nat, chunks: seq<string>)
    requires Safe(Lower(document)) && read <= |document| && read < Deadline(Lower(document))
    requires Concat(chunks) == document[read..]
    ensures StreamPlace(document[..read], chunks) in {None, Some(WholePlace(Lower(document)))}
    ensures AreText(chunks) ==> StreamPlace(document[..read], chunks).Some?
    decreases |chunks|
  {
    hide IsUtf8, PlaceIn, Safe, Deadline, WholePlace, Keep, Lower;
    if chunks == [] {
      EndOfSafe(Lower(document));
    } else if IsUtf8(chunks[0]) {
      var chunk := chunks[0];
      var end := read + |chunk|;
      HeadAndTail(document, read, chunk, Concat(chunks[1..]));
      NextPlace(document, read, chunk);
      StretchOfSafe(Lower(document), Keep(document[..read]), read, end);
      if PlaceIn(Lower(document), Keep(document[..read]), end).None? {
        RunOverSafe(document, end, chunks[1..]);
      }
    }
  }

  lemma HeadAndTail(document: string, read: nat, chunk: string, rest: string)
    requires read <= |document| && chunk + rest == document[read..]
    ensures var end := read + |chunk|;
      end <= |document| && chunk == document[read..end] && rest == document[end..]
  {
    var end := read + |chunk|;
    assert document[read..][..|chunk|] == document[read..end];
    assert document[read..][|chunk|..] == document[end..];
    assert (chunk + rest)[..|chunk|] == chunk;
    assert (chunk + rest)[|chunk|..] == rest;
  }

  // An unsafe text: some cut in two puts the script elsewhere.

  /** Where the script goes when the document comes in two chunks. */
  function PlaceInTwo(document: string, cut: nat): nat
    requires cut <= |document|
  {
    var text := Lower(document);
    var first := PlaceIn(text, 0, cut);
    var second := PlaceIn(text, Keep(document[..cut]), |text|);
    if first.Some? then first.value else if second.Some? then second.value else |text|
  }

  lemma RunInTwo(document: string, cut: nat)
    requires IsUtf8(document) && cut <= |document| && IsBoundary(document, cut)
    ensures AreText([document[..cut], document[cut..]])
    ensures Concat([document[..cut], document[cut..]]) == document
    ensures StreamPlace("", [document[..cut], document[cut..]]) == Some(PlaceInTwo(document, cut))
  {
    hide IsUtf8, PlaceIn, Keep, Lower, IsBoundary, Concat, StreamPlace, IsStretch, Place;
    var first, second := document[..cut], document[cut..];
    CutIsUtf8(document, cut);
    TwoSteps(first, second);
    NothingInNothing();
    Halves(document, cut);
    NextPlace(document, 0, first);
    NextPlace(document, cut, second);
  }

  lemma Halves(document: string, cut: nat)
    requires cut <= |document|
    ensures document[..cut] + document[cut..] == document
    ensures document[..0] == "" && document[..|document|] == document
    ensures document[..cut] == document[0..cut] && document[cut..] == document[cut..|document|]
  {
  }

  lemma TwoSteps(first: string, second: string)
    requires IsUtf8(first) && IsUtf8(second)
    ensures Concat([first, second]) == first + second
    ensures StreamPlace("", [first, second])
         == var found := PlaceIn(Lower(first), Keep(""), |first|);
            if found.Some? then found else LastPlace(first, second)
  {
    hide IsUtf8, PlaceIn, Keep, Lower;
    var chunks := [first, second];
    assert chunks[1..] == [second];
    assert [second][1..] == [];
    assert Concat([second]) == second + Concat([]) == second;
    assert "" + first == first;
    assert StreamPlace(first, [second]) == LastPlace(first, second);
  }

  function LastPlace(seen: string, chunk: string): Option<nat> {
    var document := seen + chunk;
    var found := PlaceIn(Lower(document), Keep(seen), |document|);
    if found.Some? then found else Some(|document|)
  }

  /** The first tag starts and ends in front of its end. */
  lemma FirstTag(text: string) returns (at: nat)
    requires TagEnd(text, 0, |text|).Some?
    ensures at + |HEAD_WITH_ATTRIBUTES| < TagEnd(text, 0, |text|).value
    ensures Occurs(text, HEAD_WITH_ATTRIBUTES, at, TagEnd(text, 0, |text|).value)
  {
    at := FindIn(text, HEAD_WITH_ATTRIBUTES, 0, |text|).value;
    NoBracketInside(text, at, TagEnd(text, 0, |text|).value - 1);
  }

  lemma NoBracketInside(text: string, at: nat, bracket: nat)
    requires Occurs(text, HEAD_WITH_ATTRIBUTES, at, |text|) && at <= bracket < |text| && text[bracket] == '>'
    ensures at + |HEAD_WITH_ATTRIBUTES| <= bracket
  {
    var found := text[at..at + |HEAD_WITH_ATTRIBUTES|];
    assert found[0] == text[at] == '<' && found[1] == text[at + 1] == 'h' && found[2] == text[at + 2] == 'e';
    assert found[3] == text[at + 3] == 'a' && found[4] == text[at + 4] == 'd' && found[5] == text[at + 5] == ' ';
  }

  /** A long tag is forgotten by a run that has read everything but its end. */
  lemma LongTagIsForgotten(document: string, end: nat, at: nat)
    requires end <= |document|
    requires var text := Lower(document);
      0 < end && text[end - 1] == '>' && !EndsShortTag(text, end) && Occurs(text, HEAD_WITH_ATTRIBUTES, at, |text|)
    requires Keep(document[..end - 1]) <= at
    ensures at >= end
  {
    hide Occurs, FindIn;
    var text := Lower(document);
    if at < end {
      NoBracketInside(text, at, end - 1);
      OccursUntil(text, HEAD_WITH_ATTRIBUTES, at, end);
      SecondIsBoundary(document, at, end - 1);
    }
  }

  lemma OccursUntil(text: string, marker: string, at: nat, end: nat)
    requires Occurs(text, marker, at, |text|) && at + |marker| <= end <= |text|
    ensures Occurs(text, marker, at, end)
  {
  }

  lemma SecondIsBoundary(document: string, at: nat, end: nat)
    requires end <= |document| && at + 1 < end && Occurs(Lower(document), HEAD_WITH_ATTRIBUTES, at, |document|)
    ensures IsBoundary(document[..end], at + 1)
  {
    var found := Lower(document)[at..at + |HEAD_WITH_ATTRIBUTES|];
    assert found[1] == Lower(document)[at + 1] == 'h';
  }

  /** The end of a body is not the end of a short tag. */
  lemma BodyIsNoShortTag(text: string, body: nat, end: nat)
    requires Occurs(text, BODY_END, body, |text|)
    requires body < end <= body + |BODY_END| && end <= |text| && text[end - 1] == '>'
    ensures !EndsShortTag(text, end) && end == body + |BODY_END|
  {
    hide FindIn, Occurs;
    BodyCharacters(text, body);
    SecondCharacter(text, end - 7, end);
    if end >= 8 {
      SecondCharacter(text, end - 8, end);
    }
  }

  lemma BodyCharacters(text: string, body: nat)
    requires Occurs(text, BODY_END, body, |text|)
    ensures text[body] == '<' && text[body + 1] == '/' && text[body + 6] == '>'
    ensures forall i | body < i < body + 6 :: text[i] != '<' && text[i] != '>'
  {
    var found := text[body..body + |BODY_END|];
    assert found[0] == text[body] && found[1] == text[body + 1] && found[6] == text[body + 6];
    forall i | body < i < body + 6
      ensures text[i] != '<' && text[i] != '>'
    {
      assert found[i - body] == text[i];
    }
  }

  lemma TagCharacters(text: string, at: nat)
    requires Occurs(text, HEAD_WITH_ATTRIBUTES, at, |text|)
    ensures forall i | at < i < at + |HEAD_WITH_ATTRIBUTES| :: text[i] != '<'
  {
    var found := text[at..at + |HEAD_WITH_ATTRIBUTES|];
    forall i | at < i < at + |HEAD_WITH_ATTRIBUTES|
      ensures text[i] != '<'
    {
      assert found[i - at] == text[i];
    }
  }

  lemma SecondCharacter(text: string, at: nat, end: nat)
    requires at + 1 < end <= |text|
    ensures Occurs(text, HEAD_WITH_ATTRIBUTES, at, end) ==> text[at + 1] == 'h'
  {
    if Occurs(text, HEAD_WITH_ATTRIBUTES, at, end) {
      assert text[at..at + |HEAD_WITH_ATTRIBUTES|][1] == text[at + 1];
    }
  }

  /** A cut that puts the script elsewhere than it goes in one chunk. */
  lemma UnsafeCut(document: string) returns (cut: nat)
    requires IsUtf8(document) && !Safe(Lower(document))
    ensures cut <= |document| && IsBoundary(document, cut)
    ensures PlaceInTwo(document, cut) != WholePlace(Lower(document))
  {
    hide IsUtf8, Occurs, FindIn, TagEnd, Lower, IsBoundary;
    var text := Lower(document);
    var body := Find(text, BODY_END);
    var tag := TagEnd(text, 0, |text|);
    if Find(text, HEAD).Some? {
      var head := Find(text, HEAD).value;
      if body.Some? && body.value + |BODY_END| < head + |HEAD| {
        cut := AfterBody(document);
      } else {
        cut := tag.value;
        AfterBracket(document, cut - 1);
        var at := FirstTag(text);
        TagStillOpen(text, 0, cut, at);
      }
      FoundInside(text, HEAD, 0, cut);
      FoundInside(text, BODY_END, 0, cut);
    } else if body.Some? && body.value + |BODY_END| < tag.value {
      cut := AfterBody(document);
      FoundInside(text, HEAD, 0, cut);
      TagInside(text, 0, cut);
      FoundInside(text, BODY_END, 0, cut);
    } else {
      cut := tag.value - 1;
      AsciiIsKept(document, cut);
      LongTagElsewhere(document);
    }
  }

  lemma AfterBody(document: string) returns (cut: nat)
    requires IsUtf8(document) && Find(Lower(document), BODY_END).Some?
    ensures cut == Find(Lower(document), BODY_END).value + |BODY_END| <= |document| && IsBoundary(document, cut)
  {
    hide IsUtf8, Occurs, FindIn, Lower, IsBoundary;
    var body := Find(Lower(document), BODY_END).value;
    cut := body + |BODY_END|;
    MarkerEnds(document, BODY_END, body, '>');
    AfterBracket(document, cut - 1);
  }

  lemma LongTagElsewhere(document: string)
    requires !Safe(Lower(document)) && Find(Lower(document), HEAD).None?
    requires TagEnd(Lower(document), 0, |document|).Some?
    requires var body := Find(Lower(document), BODY_END);
      body.Some? ==> body.value + |BODY_END| >= TagEnd(Lower(document), 0, |document|).value
    ensures var text := Lower(document);
      PlaceInTwo(document, TagEnd(text, 0, |text|).value - 1) != WholePlace(text)
  {
    hide IsUtf8, Occurs, FindIn, TagEnd, Lower, IsBoundary, Keep, EndsShortTag;
    var text := Lower(document);
    var end := TagEnd(text, 0, |text|).value;
    var start := Keep(document[..end - 1]);
    FoundInside(text, HEAD, 0, end - 1);
    TagInside(text, 0, end - 1);
    FoundInside(text, BODY_END, 0, end - 1);
    FoundInside(text, HEAD, start, |text|);
    FoundInside(text, BODY_END, start, |text|);
    if Find(text, BODY_END).Some? && Find(text, BODY_END).value < end {
      BodyIsNoShortTag(text, Find(text, BODY_END).value, end);
    }
    KeepIsBack(document[..end - 1]);
    forall at | start <= at < end
      ensures !Occurs(text, HEAD_WITH_ATTRIBUTES, at, |text|)
    {
      if Occurs(text, HEAD_WITH_ATTRIBUTES, at, |text|) {
        LongTagIsForgotten(document, end, at);
      }
    }
    if TagEnd(text, start, |text|).Some? {
      TagForgotten(text, start, |text|, end);
    } else {
      NothingLater(text, start, end);
    }
  }

  lemma NothingLater(text: string, start: nat, later: nat)
    requires start <= later <= |text| && TagEnd(text, start, |text|).None?
    ensures TagEnd(text, later, |text|).None?
  {
    hide Occurs, FindIn;
    var tag := FindIn(text, HEAD_WITH_ATTRIBUTES, later, |text|);
    if tag.Some? {
      var first := FindIn(text, HEAD_WITH_ATTRIBUTES, start, |text|);
      assert first.value <= tag.value;
      assert FindIn(text, ">", first.value, |text|) == None;
    }
  }

  lemma KeepIsBack(document: string)
    ensures Keep(document) == 0 || Keep(document) + MAX_MARKER_LENGTH <= |document|
  {
  }

  /** Over chunks that are text, the place of the script does not depend on them exactly for the safe documents. */
  lemma ChunksDoNotMatter(document: string)
    requires IsUtf8(document)
    ensures Safe(Lower(document)) <==>
      forall chunks | AreText(chunks) && Concat(chunks) == document ::
        StreamPlace("", chunks) == Some(WholePlace(Lower(document)))
  {
    hide IsUtf8, Lower, Safe, Deadline, WholePlace, Concat, StreamPlace, PlaceInTwo;
    if Safe(Lower(document)) {
      DeadlineIsAhead(Lower(document));
      forall chunks | AreText(chunks) && Concat(chunks) == document
        ensures StreamPlace("", chunks) == Some(WholePlace(Lower(document)))
      {
        assert document[..0] == "" && document[0..] == document;
        RunOverSafe(document, 0, chunks);
      }
    } else {
      var cut := UnsafeCut(document);
      RunInTwo(document, cut);
    }
  }

  // Chunks that may cut a character.

  predicate IsAscii(text: string) {
    forall i | 0 <= i < |text| :: text[i] as int < 0x80
  }

  lemma {:induction false} AsciiIsText(text: string)
    requires IsAscii(text)
    ensures IsUtf8(text)
  {
    if text != "" {
      AsciiIsText(text[1..]);
    }
  }

  lemma {:induction false} ChunksOfAscii(chunks: seq<string>)
    requires IsAscii(Concat(chunks))
    ensures AreText(chunks)
  {
    hide IsUtf8;
    if chunks != [] {
      var rest := Concat(chunks[1..]);
      assert forall i | 0 <= i < |chunks[0]| :: Concat(chunks)[i] == chunks[0][i];
      assert forall i | 0 <= i < |rest| :: Concat(chunks)[|chunks[0]| + i] == rest[i];
      AsciiIsText(chunks[0]);
      ChunksOfAscii(chunks[1..]);
    }
  }

  lemma {:induction false} TextIsPlaced(seen: string, chunks: seq<string>)
    requires AreText(chunks)
    ensures StreamPlace(seen, chunks).Some?
    decreases |chunks|
  {
    hide IsUtf8, PlaceIn, Keep, Lower;
    if chunks != [] {
      TextIsPlaced(seen + chunks[0], chunks[1..]);
    }
  }

  /** Any other document can be cut so that the first chunk is not text. */
  lemma {:induction false} CutCharacter(document: string) returns (cut: nat)
    requires !IsAscii(document)
    ensures cut <= |document| && !IsUtf8(document[..cut])
  {
    var n := CharLength(document);
    if n == 1 && document[0] as int < 0x80 {
      cut := CutCharacter(document[1..]);
      cut := cut + 1;
      assert document[..cut][1..] == document[1..][..cut - 1];
    } else {
      cut := 1;
    }
  }

  lemma CutIsLost(document: string, cut: nat)
    requires cut <= |document| && !IsUtf8(document[..cut])
    ensures Concat([document[..cut], document[cut..]]) == document
    ensures StreamPlace("", [document[..cut], document[cut..]]) == None
  {
    hide IsUtf8, PlaceIn, Keep, Lower;
    var chunks := [document[..cut], document[cut..]];
    assert chunks[1..] == [document[cut..]] && [document[cut..]][1..] == [];
    assert Concat([document[cut..]]) == document[cut..] + Concat([]) == document[cut..];
  }

  /** The script is there whatever the chunks are exactly for the documents of ASCII alone. */
  lemma AlwaysThere(document: string)
    ensures (forall chunks | Concat(chunks) == document :: StreamPlace("", chunks).Some?) <==> IsAscii(document)
  {
    hide IsUtf8, IsAscii, Concat, StreamPlace;
    forall chunks | IsAscii(document) && Concat(chunks) == document
      ensures StreamPlace("", chunks).Some?
    {
      ChunksOfAscii(chunks);
      TextIsPlaced("", chunks);
    }
    if !IsAscii(document) {
      var cut := CutCharacter(document);
      CutIsLost(document, cut);
    }
  }

  /** The place of the script does not depend on the chunks, of which any may end within a character, exactly for the
      safe documents of ASCII alone. */
  lemma BytesDoNotMatter(document: string)
    ensures Safe(Lower(document)) && IsAscii(document) <==>
      forall chunks | Concat(chunks) == document :: StreamPlace("", chunks) == Some(WholePlace(Lower(document)))
  {
    hide IsUtf8, IsAscii, Lower, Safe, WholePlace, Concat, StreamPlace;
    if IsAscii(document) {
      AsciiIsText(document);
      ChunksDoNotMatter(document);
      forall chunks | Concat(chunks) == document
        ensures AreText(chunks)
      {
        ChunksOfAscii(chunks);
      }
    } else {
      var cut := CutCharacter(document);
      CutIsLost(document, cut);
    }
  }

  /** `<head>` and an e with an acute accent, cut within that: the document is safe, the marker is all in the first
      chunk, and the script is lost. */
  lemma CutCharacterLosesScript(document: string)
    requires document == HEAD + [0xC3 as char, 0xA9 as char]
    ensures IsUtf8(document) && Safe(Lower(document)) && WholePlace(Lower(document)) == |HEAD|
    ensures Concat([document[..7], document[7..]]) == document
        && StreamPlace("", [document[..7], document[7..]]) == None
  {
    hide IsUtf8, Lower, Safe, Concat, StreamPlace, FindIn;
    assert document[..7] == HEAD + [0xC3 as char];
    AccentIsText();
    AsciiInFront(HEAD, [0xC3 as char, 0xA9 as char]);
    AsciiInFront(HEAD, [0xC3 as char]);
    CutIsLost(document, 7);
    StartsWithHead(Lower(document));
  }

  lemma AccentIsText()
    ensures IsUtf8([0xC3 as char, 0xA9 as char]) && !IsUtf8([0xC3 as char])
  {
    assert [0xC3 as char, 0xA9 as char][2..] == "";
  }

  lemma {:induction false} AsciiInFront(front: string, text: string)
    requires IsAscii(front)
    ensures IsUtf8(front + text) <==> IsUtf8(text)
  {
    if front == "" {
      assert front + text == text;
    } else {
      assert (front + text)[1..] == front[1..] + text;
      AsciiInFront(front[1..], text);
    }
  }

  lemma StartsWithHead(text: string)
    requires |text| >= |HEAD| && forall i | 0 <= i < |HEAD| :: text[i] == HEAD[i]
    ensures Safe(text) && WholePlace(text) == |HEAD|
  {
    hide FindIn;
    assert text[0..|HEAD|] == HEAD;
    assert Occurs(text, HEAD, 0, |text|);
    PlainHeadIsSafe(text);
  }

  lemma DeadlineIsAhead(text: string)
    ensures Deadline(text) > 0
  {
  }

  /** In particular: no `<head ` and no `</body>` before the first `<head>`. */
  lemma PlainHeadIsSafe(text: string)
    requires var limit := if Find(text, HEAD).Some? then Find(text, HEAD).value else |text|;
      && FindIn(text, HEAD_WITH_ATTRIBUTES, 0, limit).None?
      && FindIn(text, BODY_END, 0, limit).None?
    ensures Safe(text)
  {
    hide Occurs, FindIn, EndsShortTag, NothingElseAfter;
    if Find(text, HEAD).Some? {
      var head := Find(text, HEAD).value;
      HeadCharacter(text, head);
      if Find(text, BODY_END).Some? {
        var body := Find(text, BODY_END).value;
        BodyCharacters(text, body);
        NotBefore(text, BODY_END, body, head);
      }
      if TagEnd(text, 0, |text|).Some? {
        var at := FirstTag(text);
        OccursLater(text, HEAD_WITH_ATTRIBUTES, at, TagEnd(text, 0, |text|).value);
        TagCharacters(text, at);
        NotBefore(text, HEAD_WITH_ATTRIBUTES, at, head);
      }
    }
  }

  lemma HeadCharacter(text: string, head: nat)
    requires Occurs(text, HEAD, head, |text|)
    ensures text[head] == '<'
  {
    assert text[head..head + |HEAD|][0] == text[head];
  }

  lemma NotBefore(text: string, marker: string, at: nat, head: nat)
    requires head <= |text| && Occurs(text, marker, at, |text|) && FindIn(text, marker, 0, head).None?
    ensures at + |marker| > head
  {
    hide FindIn;
    if at + |marker| <= head {
      OccursUntil(text, marker, at, head);
    }
  }

  /** A tag with two bytes of attributes is already too long. */
  lemma LongTagIsUnsafe()
    ensures !Safe("<head ab>c")
  {
    TagIsUnsafe("<head ab>c");
  }

  /** One tag, of nine bytes, and nothing else that could take the script. */
  lemma TagIsUnsafe(text: string)
    requires |text| == 10 && text[..6] == HEAD_WITH_ATTRIBUTES && text[8] == '>' && text[1] != '/'
    requires forall i | 0 < i < 10 :: text[i] != '<'
    requires forall i | 0 <= i < 10 && i != 8 :: text[i] != '>'
    ensures !Safe(text)
  {
    hide FindIn, Occurs;
    forall i | 0 <= i <= 10
      ensures !Occurs(text, HEAD, i, 10) && !Occurs(text, BODY_END, i, 10)
      ensures Occurs(text, HEAD_WITH_ATTRIBUTES, i, 10) ==> i == 0
      ensures Occurs(text, ">", i, 10) ==> i == 8
    {
      FirstAndLast(text, HEAD, i);
      FirstAndLast(text, BODY_END, i);
      FirstAndLast(text, HEAD_WITH_ATTRIBUTES, i);
      FirstAndLast(text, ">", i);
    }
    StartsWithTag(text);
    BracketAt(text, 8, 10);
    assert TagEnd(text, 0, 10) == Some(9);
    NoTagAt(text, 1, 9);
    NoTagAt(text, 2, 9);
    assert !EndsShortTag(text, 9);
  }

  lemma StartsWithTag(text: string)
    requires |text| == 10 && text[..6] == HEAD_WITH_ATTRIBUTES
    ensures Occurs(text, HEAD_WITH_ATTRIBUTES, 0, 10)
  {
    assert text[0..6] == text[..6];
  }

  lemma NoTagAt(text: string, at: nat, end: nat)
    requires at < end <= |text| && text[at] != '<'
    ensures !Occurs(text, HEAD_WITH_ATTRIBUTES, at, end)
  {
    if at + |HEAD_WITH_ATTRIBUTES| <= end {
      assert text[at..at + |HEAD_WITH_ATTRIBUTES|][0] == text[at];
    }
  }

  lemma FirstAndLast(text: string, marker: string, at: nat)
    requires |marker| > 0
    ensures Occurs(text, marker, at, |text|) ==>
      at + |marker| <= |text| && text[at] == marker[0] && text[at + |marker| - 1] == marker[|marker| - 1]
  {
    if Occurs(text, marker, at, |text|) {
      var found := text[at..at + |marker|];
      assert found[0] == text[at] && found[|marker| - 1] == text[at + |marker| - 1];
    }
  }
}
