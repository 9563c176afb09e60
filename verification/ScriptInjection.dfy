/**
 The streaming script injector (crates/containerproxy/src/dataplane/inject.rs): one chunk at a time,
 with a short tail of the document withheld in case a marker is split.
 */
module ScriptInjection {
  import opened Wrappers
  import opened TextSearch
  import opened Utf8
  import opened ScriptPlacement

  const MAX_MARKER_LENGTH := |BODY_END|

  /** The last boundary at or before the index. */
  function Floor(text: string, index: nat): (r: nat)
    requires index <= |text|
    ensures r <= index && IsBoundary(text, r)
    ensures forall i :: r < i <= index ==> !IsBoundary(text, i)
  {
    if index == 0 || IsBoundary(text, index) then index else Floor(text, index - 1)
  }

  method FloorCharBoundary(text: string, start: nat) returns (index: nat)
    requires start <= |text|
    ensures index == Floor(text, start)
  {
    index := start;
    while index > 0 && !IsBoundary(text, index)
      invariant index <= start
      invariant Floor(text, index) == Floor(text, start)
    {
      index := index - 1;
    }
  }

  /** How much of a document without a place for the script is sent on; the rest is withheld. */
  function Keep(document: string): (r: nat)
    ensures r <= |document| && IsBoundary(document, r)
  {
    Floor(document, if |document| < MAX_MARKER_LENGTH then 0 else |document| - MAX_MARKER_LENGTH)
  }

  /** Seven to ten bytes are withheld, exactly seven of ASCII text; all of a shorter document. */
  lemma WithheldIsShort(document: string)
    requires IsUtf8(document)
    ensures |document| < 7 ==> Keep(document) == 0
    ensures |document| >= 7 ==> 7 <= |document| - Keep(document) <= 10
    ensures |document| >= 7 && (forall c :: c in document ==> c as int < 0x80) ==> |document| - Keep(document) == 7
  {
    hide IsUtf8, IsBoundary;
    if |document| >= MAX_MARKER_LENGTH {
      var near := BoundaryIsNear(document, |document| - MAX_MARKER_LENGTH);
      assert document[|document| - MAX_MARKER_LENGTH] in document;
      AsciiIsBoundary(document, |document| - MAX_MARKER_LENGTH);
    }
  }

  lemma AsciiIsBoundary(text: string, i: nat)
    requires i < |text|
    ensures text[i] as int < 0x80 ==> IsBoundary(text, i)
  {
  }

  /** The cut in the buffer is the cut in the document. */
  lemma {:induction false} FloorInTail(document: string, start: nat, index: nat)
    requires start <= index <= |document| && IsBoundary(document, start)
    ensures Floor(document, index) == start + Floor(document[start..], index - start)
  {
    if index > start {
      assert IsBoundary(document, index) == IsBoundary(document[start..], index - start);
      if !IsBoundary(document, index) {
        FloorInTail(document, start, index - 1);
      }
    } else {
      assert index == 0 || IsBoundary(document, index);
    }
  }

  lemma KeepInBuffer(before: string, chunk: string)
    ensures var document := before + chunk;
      var buffer := document[Keep(before)..];
      var cut := if |buffer| < MAX_MARKER_LENGTH then 0 else |buffer| - MAX_MARKER_LENGTH;
      Keep(document) == Keep(before) + Floor(buffer, cut)
  {
    var document := before + chunk;
    var start := Keep(before);
    var buffer := document[start..];
    assert IsBoundary(document, start);
    if |buffer| >= MAX_MARKER_LENGTH {
      FloorInTail(document, start, |document| - MAX_MARKER_LENGTH);
    }
  }

  function Script(url: string): string {
    "<script src=\"" + url + "\"></script>"
  }

  /** A document with the script put in, or left out. */
  function Spliced(document: string, place: Option<nat>, script: string): string {
    match place
    case Some(p) => if p <= |document| then document[..p] + script + document[p..] else document
    case None => document
  }

  lemma SplicedThenMore(document: string, place: Option<nat>, script: string, more: string)
    requires place.Some? ==> place.value <= |document|
    ensures Spliced(document + more, place, script) == Spliced(document, place, script) + more
  {
    if place.Some? {
      var p := place.value;
      assert (document + more)[..p] == document[..p];
      assert (document + more)[p..] == document[p..] + more;
    }
  }

  /** Rust's string slicing, which panics off a character boundary. */
  function Slice(text: string, start: nat, end: nat): string
    requires start <= end <= |text| && IsBoundary(text, start) && IsBoundary(text, end)
  {
    text[start..end]
  }

  lemma AsciiIsKept(text: string, i: nat)
    requires i < |text| && (Lower(text)[i] == '<' || Lower(text)[i] == '>')
    ensures text[i] == Lower(text)[i] && IsBoundary(text, i) && IsBoundary(Lower(text), i)
  {
  }

  lemma MarkerEnds(text: string, marker: string, at: nat, last: char)
    requires Occurs(Lower(text), marker, at, |text|)
    requires |marker| > 0 && marker[0] == '<' && marker[|marker| - 1] == last
    ensures IsBoundary(text, at) && IsBoundary(Lower(text), at)
    ensures Lower(text)[at + |marker| - 1] == last
  {
    var found := Lower(text)[at..at + |marker|];
    assert found[0] == Lower(text)[at];
    assert found[|marker| - 1] == Lower(text)[at + |marker| - 1];
    AsciiIsKept(text, at);
  }

  lemma AfterBracket(text: string, i: nat)
    requires IsUtf8(text) && i < |text| && Lower(text)[i] == '>'
    ensures IsBoundary(text, i + 1)
  {
    AsciiIsKept(text, i);
    BoundaryAfterAscii(text, i);
  }

  class ScriptInjector {
    const script: string
    var pending: string
    var injected: bool
    /** All that was pushed, all that was sent, and where in it the script went (None: it was left out). */
    ghost var document: string
    ghost var sent: string
    ghost var place: Option<nat>

    ghost predicate Valid()
      reads this
    {
      if injected then
        && pending == ""
        && (place.Some? ==> place.value <= |document|)
        && sent == Spliced(document, place, script)
      else
        && IsUtf8(document)
        && sent == document[..Keep(document)]
        && pending == document[Keep(document)..]
        && Place(Lower(pending)) == None
    }

    constructor (url: string)
      ensures Valid() && !injected && document == "" && sent == ""
      ensures script == Script(url)
    {
      script := "<script src=\"" + url + "\"></script>";
      pending, injected := "", false;
      document, sent, place := "", "", None;
      new;
      NothingInNothing();
    }

    /** Sends everything pushed so far, less a short tail, with the script as soon as it has a place. */
    method Push(chunk: string) returns (output: string)
      requires Valid()
      modifies this
      ensures Valid()
      ensures document == old(document) + chunk
      ensures sent == old(sent) + output
      ensures old(injected) ==> injected && place == old(place) && output == chunk
      ensures !old(injected) && !IsUtf8(chunk) ==> injected && place == None
      ensures !old(injected) && IsUtf8(chunk) ==>
        var found := PlaceIn(Lower(document), Keep(old(document)), |document|);
        injected == found.Some? && (injected ==> place == found)
    {
      hide IsUtf8, Lower, Place, PlaceIn, Keep, Floor, IsBoundary, Spliced, Occurs, FindIn;
      ghost var before := document;
      document := document + chunk;
      if injected {
        SplicedThenMore(before, place, script, chunk);
        sent := sent + chunk;
        return chunk;
      }
      if !IsUtf8(chunk) {
        injected := true;
        output := pending + chunk;
        pending := "";
        TailThenMore(before, Keep(before), chunk);
        sent, place := document, None;
        SplicedNowhere(document, script);
        return;
      }
      var buffer := pending + chunk;
      BufferIsTail(before, chunk, pending);
      var attempt := TryInject(buffer);
      if attempt.Some? {
        pending := "";
        injected := true;
        place := PlaceIn(Lower(document), Keep(before), |document|);
        SplicedTail(document, Keep(before), place.value, script);
        sent := sent + attempt.value;
        return attempt.value;
      }
      var keepFrom := if |buffer| < MAX_MARKER_LENGTH then 0 else |buffer| - MAX_MARKER_LENGTH;
      keepFrom := FloorCharBoundary(buffer, keepFrom);
      Withheld(before, chunk, keepFrom);
      EndIsBoundary(buffer);
      pending := Slice(buffer, keepFrom, |buffer|);
      output := Slice(buffer, 0, keepFrom);
      sent := sent + output;
    }

    /** Sends the tail; the script goes to the very end when no place was found for it. */
    method Finish() returns (output: string)
      requires Valid()
      modifies this
      ensures Valid() && injected
      ensures document == old(document)
      ensures sent == old(sent) + output
      ensures old(injected) ==> place == old(place) && output == ""
      ensures !old(injected) ==> place == Some(|document|)
    {
      hide IsUtf8, Lower, Place, PlaceIn, Keep, Floor, IsBoundary, Occurs;
      var buffer := pending;
      pending := "";
      if injected {
        sent := sent + buffer;
        return buffer;
      }
      injected := true;
      CutIsUtf8(document, Keep(document));
      var attempt := TryInject(buffer);
      match attempt
      case Some(rewritten) => output := rewritten;
      case None => output := buffer + script;
      assert sent + output == document + script;
      assert document[..|document|] == document && document[|document|..] == "";
      sent, place := sent + output, Some(|document|);
    }

    /** The buffer with the script, if it has a place for it. */
    method TryInject(buffer: string) returns (output: Option<string>)
      requires IsUtf8(buffer)
      ensures output == (match Place(Lower(buffer))
                         case None => None
                         case Some(p) => Some(Spliced(buffer, Some(p), script)))
    {
      hide IsUtf8, Occurs, FindIn, IsBoundary;
      var lowercase := Lower(buffer);
      var head := Find(lowercase, HEAD);
      if head.Some? {
        var insertAt := head.value + |HEAD|;
        MarkerEnds(buffer, HEAD, head.value, '>');
        AfterBracket(buffer, insertAt - 1);
        return Some(Insert(buffer, insertAt));
      }
      var tag := Find(lowercase, HEAD_WITH_ATTRIBUTES);
      if tag.Some? {
        MarkerEnds(buffer, HEAD_WITH_ATTRIBUTES, tag.value, ' ');
        var close := FindAfter(lowercase, tag.value);
        if close.Some? {
          var insertAt := tag.value + close.value + 1;
          AfterBracket(buffer, insertAt - 1);
          return Some(Insert(buffer, insertAt));
        }
      }
      var body := Find(lowercase, BODY_END);
      if body.Some? {
        MarkerEnds(buffer, BODY_END, body.value, '>');
        return Some(Insert(buffer, body.value));
      }
      return None;
    }

    /** The offset, from the start of the tag, of the bracket that closes it. */
    method FindAfter(lowercase: string, tag: nat) returns (close: Option<nat>)
      requires tag <= |lowercase| && IsBoundary(lowercase, tag)
      ensures close == Moved(FindIn(lowercase, ">", tag, |lowercase|), tag)
      ensures close.Some? ==> tag + close.value < |lowercase| && lowercase[tag + close.value] == '>'
    {
      hide IsBoundary, FindIn;
      EndIsBoundary(lowercase);
      close := Find(Slice(lowercase, tag, |lowercase|), ">");
      FindInStretch(lowercase, ">", tag, tag, |lowercase|);
    }

    function Insert(buffer: string, at: nat): (r: string)
      requires at <= |buffer| && IsBoundary(buffer, at)
      ensures r == Spliced(buffer, Some(at), script)
    {
      Slice(buffer, 0, at) + script + Slice(buffer, at, |buffer|)
    }
  }

  lemma EndIsBoundary(text: string)
    ensures IsBoundary(text, 0) && IsBoundary(text, |text|)
  {
  }

  lemma SplicedNowhere(document: string, script: string)
    ensures Spliced(document, None, script) == document
  {
  }

  lemma CutTail(document: string, start: nat, cut: nat)
    requires start + cut <= |document|
    ensures document[..start] + document[start..][..cut] == document[..start + cut]
    ensures document[start..][0..cut] == document[start..][..cut]
    ensures document[start..][cut..|document| - start] == document[start + cut..] == document[start..][cut..]
  {
  }

  lemma NothingInNothing()
    ensures Place(Lower("")) == None && Keep("") == 0
  {
    assert Lower("") == "";
  }

  lemma LowerOfStretch(document: string, start: nat, end: nat)
    requires start <= end <= |document|
    ensures Lower(document[start..end]) == Lower(document)[start..end]
  {
  }

  lemma TailThenMore(before: string, start: nat, chunk: string)
    requires start <= |before|
    ensures before[start..] + chunk == (before + chunk)[start..]
    ensures (before + chunk)[start..] == (before + chunk)[start..|before + chunk|]
    ensures (before + chunk)[..start] == before[..start]
    ensures before[..start] + (before[start..] + chunk) == before + chunk
  {
  }

  /** The buffer is the document from what was sent on. */
  lemma BufferIsTail(before: string, chunk: string, pending: string)
    requires IsUtf8(before) && IsUtf8(chunk) && pending == before[Keep(before)..]
    ensures var document := before + chunk;
      var start := Keep(before);
      && pending + chunk == document[start..]
      && IsUtf8(document) && IsUtf8(pending + chunk)
      && Place(Lower(pending + chunk)) == Moved(PlaceIn(Lower(document), start, |document|), start)
      && document[..start] == before[..start]
  {
    hide IsUtf8, Occurs, FindIn, PlaceIn, Place, Keep, Lower;
    var document := before + chunk;
    ConcatIsUtf8(before, chunk);
    CutIsUtf8(before, Keep(before));
    ConcatIsUtf8(pending, chunk);
    TailThenMore(before, Keep(before), chunk);
    LowerOfStretch(document, Keep(before), |document|);
    PlaceInStretch(Lower(document), Keep(before), |document|);
  }

  lemma NothingInTail(document: string, start: nat, later: nat)
    requires start <= later <= |document|
    requires PlaceIn(Lower(document), start, |document|) == None
    ensures Place(Lower(document[later..])) == None
  {
    hide PlaceIn, Place;
    PlaceNeedsTheFront(Lower(document), start, later, |document|);
    assert document[later..] == document[later..|document|];
    LowerOfStretch(document, later, |document|);
    PlaceInStretch(Lower(document), later, |document|);
  }

  /** What is withheld of the buffer is what is withheld of the document. */
  lemma Withheld(before: string, chunk: string, keepFrom: nat)
    requires PlaceIn(Lower(before + chunk), Keep(before), |before + chunk|) == None
    requires var buffer := (before + chunk)[Keep(before)..];
      keepFrom == Floor(buffer, if |buffer| < MAX_MARKER_LENGTH then 0 else |buffer| - MAX_MARKER_LENGTH)
    ensures var document := before + chunk;
      var buffer := document[Keep(before)..];
      && buffer[keepFrom..|buffer|] == document[Keep(document)..]
      && before[..Keep(before)] + buffer[0..keepFrom] == document[..Keep(document)]
      && Place(Lower(document[Keep(document)..])) == None
  {
    hide IsUtf8, Lower, Place, PlaceIn, Keep, Floor, IsBoundary;
    KeepInBuffer(before, chunk);
    TailThenMore(before, Keep(before), chunk);
    NothingInTail(before + chunk, Keep(before), Keep(before + chunk));
    CutTail(before + chunk, Keep(before), keepFrom);
  }

  /** Putting the script into the tail puts it into the document. */
  lemma SplicedIs(document: string, place: nat, script: string)
    requires place <= |document|
    ensures Spliced(document, Some(place), script) == document[..place] + script + document[place..]
  {
  }

  lemma SplicedTail(document: string, start: nat, place: nat, script: string)
    requires start <= place <= |document|
    ensures document[..start] + Spliced(document[start..], Some(place - start), script)
         == Spliced(document, Some(place), script)
  {
    hide Spliced;
    var tail, cut := document[start..], place - start;
    SplicedIs(document, place, script);
    SplicedIs(tail, cut, script);
    InsertedInTail(document[..start], tail[..cut], script, tail[cut..]);
    CutTail(document, start, cut);
  }

  lemma InsertedInTail(sent: string, left: string, script: string, right: string)
    ensures sent + (left + script + right) == (sent + left) + script + right
  {
  }
}
