/**
 What the injector (crates/containerproxy/src/dataplane/inject.rs) makes of a document in one chunk, spelled out in
 characters.
 */
module InjectedMarkers {
  import opened Wrappers
  import opened TextSearch
  import opened Utf8
  import opened ScriptPlacement
  import opened ScriptInjection
  import opened ScriptChunks

  /** `<head>` in any case of letters. */
  predicate HeadAt(text: string, i: nat) {
    && i + 6 <= |text| && text[i] == '<'
    && text[i + 1] in {'h', 'H'} && text[i + 2] in {'e', 'E'} && text[i + 3] in {'a', 'A'}
    && text[i + 4] in {'d', 'D'} && text[i + 5] == '>'
  }

  /** The start of a `<head ...>` tag. */
  predicate HeadStartAt(text: string, i: nat) {
    && i + 6 <= |text| && text[i] == '<'
    && text[i + 1] in {'h', 'H'} && text[i + 2] in {'e', 'E'} && text[i + 3] in {'a', 'A'}
    && text[i + 4] in {'d', 'D'} && text[i + 5] == ' '
  }

  /** `</body>` */
  predicate BodyEndAt(text: string, i: nat) {
    && i + 7 <= |text| && text[i] == '<' && text[i + 1] == '/'
    && text[i + 2] in {'b', 'B'} && text[i + 3] in {'o', 'O'} && text[i + 4] in {'d', 'D'}
    && text[i + 5] in {'y', 'Y'} && text[i + 6] == '>'
  }

  /** There is a `<head ...>` tag that is closed. */
  ghost predicate HasHeadTag(text: string) {
    exists i: nat, j: nat :: i < j < |text| && HeadStartAt(text, i) && text[j] == '>'
  }

  lemma HeadOccurs(text: string, i: nat)
    ensures Occurs(Lower(text), HEAD, i, |text|) <==> HeadAt(text, i)
  {
    hide Lower;
    if i + 6 <= |text| {
      SixCharacters(Lower(text)[i..i + 6], HEAD);
    }
  }

  lemma HeadStartOccurs(text: string, i: nat)
    ensures Occurs(Lower(text), HEAD_WITH_ATTRIBUTES, i, |text|) <==> HeadStartAt(text, i)
  {
    hide Lower;
    if i + 6 <= |text| {
      SixCharacters(Lower(text)[i..i + 6], HEAD_WITH_ATTRIBUTES);
    }
  }

  lemma SixCharacters(a: string, b: string)
    requires |a| == |b| == 6
    ensures a == b
       <==> a[0] == b[0] && a[1] == b[1] && a[2] == b[2] && a[3] == b[3] && a[4] == b[4] && a[5] == b[5]
  {
  }

  lemma BodyEndOccurs(text: string, i: nat)
    ensures Occurs(Lower(text), BODY_END, i, |text|) <==> BodyEndAt(text, i)
  {
    hide Lower;
    if i + 7 <= |text| {
      var found := Lower(text)[i..i + 7];
      SixCharacters(found[..6], BODY_END[..6]);
      assert found == found[..6] + [found[6]] && BODY_END == BODY_END[..6] + [BODY_END[6]];
    }
  }

  lemma BracketOccurs(text: string, i: nat)
    ensures Occurs(Lower(text), ">", i, |text|) <==> i < |text| && text[i] == '>'
  {
    hide Lower;
  }

  lemma OneChunk(document: string, url: string)
    requires IsUtf8(document)
    ensures var place := Place(Lower(document));
      Output(url, [document])
        == Spliced(document, Some(if place.Some? then place.value else |document|),
                   "<script src=\"" + url + "\"></script>")
  {
    hide IsUtf8, PlaceIn, Keep, Lower, Spliced;
    NothingInNothing();
    assert [document][1..] == [] && "" + document == document;
    assert Concat([document]) == document + Concat([]) == document;
    var found := PlaceIn(Lower(document), Keep(""), |document|);
    assert StreamPlace("", [document]) == if found.Some? then found else StreamPlace(document, []);
  }

  /** The script goes behind the first `<head>`. */
  lemma BehindHead(url: string, before: string, tag: string, after: string)
    requires IsUtf8(before + tag + after)
    requires |tag| == 6 && HeadAt(tag, 0) && forall i: nat :: !HeadAt(before, i)
    ensures Output(url, [before + tag + after]) == before + tag + "<script src=\"" + url + "\"></script>" + after
  {
    hide IsUtf8, Lower, FindIn, Occurs, Spliced;
    var document, at := before + tag + after, |before|;
    Glued(before, tag, after);
    OneChunk(document, url);
    HeadOccurs(document, at);
    forall i: nat | i < at
      ensures !Occurs(Lower(document), HEAD, i, |document|)
    {
      HeadOccurs(document, i);
      assert !HeadAt(before, i);
    }
    SplicedIs(document, at + 6, "<script src=\"" + url + "\"></script>");
  }

  lemma Glued(before: string, tag: string, after: string)
    ensures var document := before + tag + after;
      && document[..|before|] == before
      && document[..|before| + |tag|] == before + tag && document[|before| + |tag|..] == after
      && document[|before|..] == tag + after
      && (forall i | 0 <= i < |before| :: document[i] == before[i])
      && forall i | 0 <= i < |tag| :: document[|before| + i] == tag[i]
  {
  }

  lemma TagCloses(start: string, attributes: string)
    requires |start| == 6 && HeadStartAt(start, 0) && '>' !in attributes
    ensures var tag := start + attributes + ">";
      && HeadStartAt(tag, 0)
      && forall i | 0 <= i < |tag| :: tag[i] == '>' <==> i == |tag| - 1
  {
    var tag := start + attributes + ">";
    forall i | 0 <= i < |tag|
      ensures tag[i] == '>' <==> i == |tag| - 1
    {
      if 6 <= i < |tag| - 1 {
        assert tag[i] == attributes[i - 6];
      }
    }
  }

  lemma WithoutHead(document: string)
    requires forall i: nat :: !HeadAt(document, i)
    ensures Find(Lower(document), HEAD).None?
  {
    hide Lower, FindIn, Occurs;
    forall i: nat
      ensures !Occurs(Lower(document), HEAD, i, |document|)
    {
      HeadOccurs(document, i);
    }
  }

  lemma FirstTag(document: string, at: nat, last: nat)
    requires at <= last < |document| && HeadStartAt(document, at) && forall i: nat | i < at :: !HeadStartAt(document, i)
    requires forall i | at <= i <= last :: document[i] == '>' <==> i == last
    ensures TagEnd(Lower(document), 0, |document|) == Some(last + 1)
  {
    hide Lower, FindIn, Occurs, HeadStartAt;
    HeadStartOccurs(document, at);
    forall i: nat | i < at
      ensures !Occurs(Lower(document), HEAD_WITH_ATTRIBUTES, i, |document|)
    {
      HeadStartOccurs(document, i);
    }
    forall i: nat | at <= i <= last
      ensures Occurs(Lower(document), ">", i, |document|) <==> i == last
    {
      BracketOccurs(document, i);
    }
    assert FindIn(Lower(document), HEAD_WITH_ATTRIBUTES, 0, |document|) == Some(at);
    assert Occurs(Lower(document), ">", last, |document|);
    assert FindIn(Lower(document), ">", at, |document|) == Some(last);
  }

  /** Without a `<head>`, behind the first `<head ...>` tag. */
  lemma BehindHeadTag(url: string, before: string, start: string, attributes: string, after: string)
    requires IsUtf8(before + (start + attributes + ">") + after)
    requires |start| == 6 && HeadStartAt(start, 0) && '>' !in attributes
    requires forall i: nat :: !HeadAt(before + (start + attributes + ">") + after, i)
    requires forall i: nat :: !HeadStartAt(before, i)
    ensures Output(url, [before + (start + attributes + ">") + after])
         == before + (start + attributes + ">") + "<script src=\"" + url + "\"></script>" + after
  {
    hide IsUtf8, Lower, FindIn, Occurs, Spliced, TagEnd;
    var tag := start + attributes + ">";
    var document, at := before + tag + after, |before|;
    Glued(before, tag, after);
    TagCloses(start, attributes);
    OneChunk(document, url);
    WithoutHead(document);
    forall i: nat | i < at
      ensures !HeadStartAt(document, i)
    {
      assert !HeadStartAt(before, i);
    }
    forall i | at <= i <= at + |tag| - 1
      ensures document[i] == '>' <==> i == at + |tag| - 1
    {
      assert document[i] == tag[i - at];
    }
    FirstTag(document, at, at + |tag| - 1);
    SplicedIs(document, at + |tag|, "<script src=\"" + url + "\"></script>");
  }

  lemma FirstBodyEnd(document: string, at: nat)
    requires at <= |document| && BodyEndAt(document, at) && forall i: nat | i < at :: !BodyEndAt(document, i)
    ensures Find(Lower(document), BODY_END) == Some(at)
  {
    hide Lower, FindIn, Occurs, BodyEndAt;
    BodyEndOccurs(document, at);
    forall i: nat | i < at
      ensures !Occurs(Lower(document), BODY_END, i, |document|)
    {
      BodyEndOccurs(document, i);
    }
  }

  /** Without either, in front of the first `</body>`. */
  lemma InFrontOfBodyEnd(url: string, before: string, end: string, after: string)
    requires IsUtf8(before + end + after)
    requires (forall i: nat :: !HeadAt(before + end + after, i)) && !HasHeadTag(before + end + after)
    requires |end| == 7 && BodyEndAt(end, 0) && forall i: nat :: !BodyEndAt(before, i)
    ensures Output(url, [before + end + after]) == before + "<script src=\"" + url + "\"></script>" + end + after
  {
    hide IsUtf8, Lower, FindIn, Occurs, Spliced, TagEnd, HasHeadTag;
    var document, at, script := before + end + after, |before|, "<script src=\"" + url + "\"></script>";
    Glued(before, end, after);
    OneChunk(document, url);
    NoHead(document);
    forall i: nat | i < at
      ensures !BodyEndAt(document, i)
    {
      assert !BodyEndAt(before, i);
    }
    FirstBodyEnd(document, at);
    SplicedIs(document, at, script);
    assert before + script + (end + after) == before + script + end + after;
  }

  lemma NoHead(document: string)
    requires (forall i: nat :: !HeadAt(document, i)) && !HasHeadTag(document)
    ensures Find(Lower(document), HEAD).None? && TagEnd(Lower(document), 0, |document|).None?
  {
    hide Lower, FindIn, Occurs;
    WithoutHead(document);
    var start := Find(Lower(document), HEAD_WITH_ATTRIBUTES);
    if start.Some? {
      HeadStartOccurs(document, start.value);
      var close := FindIn(Lower(document), ">", start.value, |document|);
      if close.Some? {
        BracketOccurs(document, close.value);
      }
    }
  }

  /** Without any of them, at the end. */
  lemma AtTheEnd(url: string, document: string)
    requires IsUtf8(document) && !HasHeadTag(document)
    requires forall i: nat :: !HeadAt(document, i) && !BodyEndAt(document, i)
    ensures Output(url, [document]) == document + "<script src=\"" + url + "\"></script>"
  {
    hide IsUtf8, Lower, FindIn, Occurs, Spliced;
    var script := "<script src=\"" + url + "\"></script>";
    OneChunk(document, url);
    NoHead(document);
    forall i: nat
      ensures !Occurs(Lower(document), BODY_END, i, |document|)
    {
      BodyEndOccurs(document, i);
    }
    SplicedIs(document, |document|, script);
    assert document[..|document|] == document && document[|document|..] == "";
  }
}
