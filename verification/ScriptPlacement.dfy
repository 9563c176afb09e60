/**
 Where the script goes (crates/containerproxy/src/dataplane/inject.rs): the place found in one buffer,
 and what a buffer that holds only a stretch of a document shows of the document.
 */
module ScriptPlacement {
  import opened Ascii
  import opened Wrappers
  import opened TextSearch

  const HEAD := "<head>"
  const HEAD_WITH_ATTRIBUTES := "<head "
  const BODY_END := "</body>"

  function Lower(text: string): (r: string)
    ensures |r| == |text|
    ensures forall i :: 0 <= i < |r| ==> r[i] == LowerCase(text[i])
  {
    seq(|text|, i requires 0 <= i < |text| => LowerCase(text[i]))
  }

  /** The end of the first `<head ` tag in text[start..end], if that tag is closed there. */
  function TagEnd(text: string, start: nat, end: nat): (r: Option<nat>)
    requires start <= end <= |text|
    ensures r.Some? ==> start < r.value <= end && text[r.value - 1] == '>'
  {
    match FindIn(text, HEAD_WITH_ATTRIBUTES, start, end)
    case None => None
    case Some(tag) =>
      match FindIn(text, ">", tag, end)
      case None => None
      case Some(close) => Some(close + 1)
  }

  /** Where the script goes, for a buffer that holds text[start..end], in lower case. */
  function PlaceIn(text: string, start: nat, end: nat): (r: Option<nat>)
    requires start <= end <= |text|
    ensures r.Some? ==> start <= r.value <= end
  {
    match FindIn(text, HEAD, start, end)
    case Some(head) => Some(head + |HEAD|)
    case None =>
      if TagEnd(text, start, end).Some? then TagEnd(text, start, end)
      else FindIn(text, BODY_END, start, end)
  }

  function Place(text: string): (r: Option<nat>)
    ensures r.Some? ==> r.value <= |text|
  {
    PlaceIn(text, 0, |text|)
  }

  lemma OccursInStretch(text: string, marker: string, start: nat, at: nat, end: nat)
    requires start <= at && start <= end <= |text|
    ensures Occurs(text, marker, at, end) <==> Occurs(text[start..end], marker, at - start, end - start)
  {
    if at + |marker| <= end {
      var inner := text[start..end][at - start..at - start + |marker|];
      assert |inner| == |marker|;
      assert forall k :: 0 <= k < |marker| ==> inner[k] == text[at + k];
      assert inner == text[at..at + |marker|];
    }
  }

  function Moved(r: Option<nat>, start: nat): (s: Option<int>) {
    match r
    case None => None
    case Some(i) => Some(i - start)
  }

  /** Searching a buffer is searching the stretch of the document that it holds. */
  lemma FindInStretch(text: string, marker: string, start: nat, first: nat, end: nat)
    requires start <= first <= end <= |text|
    ensures FindIn(text[start..end], marker, first - start, end - start)
         == Moved(FindIn(text, marker, first, end), start)
  {
    hide Occurs, FindIn;
    var whole := FindIn(text, marker, first, end);
    var part := FindIn(text[start..end], marker, first - start, end - start);
    if whole.Some? {
      OccursInStretch(text, marker, start, whole.value, end);
    }
    if part.Some? {
      OccursInStretch(text, marker, start, part.value + start, end);
    }
  }

  lemma TagEndInStretch(text: string, start: nat, end: nat)
    requires start <= end <= |text|
    ensures TagEnd(text[start..end], 0, end - start) == Moved(TagEnd(text, start, end), start)
  {
    hide Occurs, FindIn;
    FindInStretch(text, HEAD_WITH_ATTRIBUTES, start, start, end);
    var tag := FindIn(text, HEAD_WITH_ATTRIBUTES, start, end);
    if tag.Some? {
      FindInStretch(text, ">", start, tag.value, end);
    }
  }

  lemma PlaceInStretch(text: string, start: nat, end: nat)
    requires start <= end <= |text|
    ensures Place(text[start..end]) == Moved(PlaceIn(text, start, end), start)
  {
    hide Occurs, FindIn, TagEnd;
    FindInStretch(text, HEAD, start, start, end);
    TagEndInStretch(text, start, end);
    FindInStretch(text, BODY_END, start, start, end);
  }

  /** Dropping the front of a buffer that has no place for the script uncovers none. */
  lemma PlaceNeedsTheFront(text: string, start: nat, later: nat, end: nat)
    requires start <= later <= end <= |text|
    requires PlaceIn(text, start, end) == None
    ensures PlaceIn(text, later, end) == None
  {
    hide Occurs, FindIn;
    var tag := FindIn(text, HEAD_WITH_ATTRIBUTES, later, end);
    if tag.Some? {
      assert Occurs(text, HEAD_WITH_ATTRIBUTES, tag.value, end);
      var first := FindIn(text, HEAD_WITH_ATTRIBUTES, start, end);
      assert first.value <= tag.value;
      assert FindIn(text, ">", first.value, end) == None;
    }
  }
}
