/**
 For which documents the output of the injector (crates/containerproxy/src/dataplane/inject.rs) is the same however
 the document is cut into chunks.
 */
module InjectedOutput {
  import opened Wrappers
  import opened TextSearch
  import opened Utf8
  import opened ScriptPlacement
  import opened ScriptInjection
  import opened ScriptChunks
  import opened ChunkIndependence

  predicate HasNoTag(url: string) {
    '<' !in url
  }

  /** In the script a `<` starts the opening tag or the closing one. */
  lemma ScriptTags(url: string)
    requires HasNoTag(url)
    ensures |Script(url)| > 9 && Script(url)[0] == '<' && Script(url)[1] == 's' && Script(url)[|Script(url)| - 8] == '/'
    ensures forall n | 0 < n < |Script(url)| && n != |Script(url)| - 9 :: Script(url)[n] != '<'
  {
    var opening, closing := "<script src=\"", "\"></script>";
    forall n | 0 < n < |Script(url)| && n != |Script(url)| - 9
      ensures Script(url)[n] != '<'
    {
      if n < |opening| {
        assert Script(url)[n] == opening[n];
      } else if n < |opening| + |url| {
        assert Script(url)[n] == url[n - |opening|];
      } else {
        assert Script(url)[n] == closing[n - |opening| - |url|];
      }
    }
  }

  lemma SplicedAt(document: string, place: nat, script: string, i: nat)
    requires place <= |document| && i < |document| + |script|
    ensures |Spliced(document, Some(place), script)| == |document| + |script|
    ensures Spliced(document, Some(place), script)[i] ==
      if i < place then document[i] else if i < place + |script| then script[i - place] else document[i - |script|]
  {
  }

  /** If two places far apart make the same output, the script is in the document. */
  lemma FarPlaces(document: string, first: nat, second: nat, script: string)
    requires first + |script| <= second <= |document|
    requires Spliced(document, Some(first), script) == Spliced(document, Some(second), script)
    ensures Find(document, script).Some?
  {
    hide Spliced, FindIn;
    forall k | 0 <= k < |script|
      ensures document[first + k] == script[k]
    {
      SplicedAt(document, first, script, first + k);
      SplicedAt(document, second, script, first + k);
    }
    assert document[first..first + |script|] == script;
    assert Occurs(document, script, first, |document|);
  }

  /** If two near places make the same output, the script overlaps itself. */
  lemma NearPlaces(document: string, first: nat, second: nat, script: string, k: nat)
    requires first < second <= |document| && second - first + k < |script|
    requires Spliced(document, Some(first), script) == Spliced(document, Some(second), script)
    ensures script[second - first + k] == script[k]
  {
    hide Spliced;
    SplicedAt(document, first, script, second + k);
    SplicedAt(document, second, script, second + k);
  }

  /** Elsewhere the script makes another output. */
  lemma ElsewhereIsDifferent(document: string, first: nat, second: nat, url: string)
    requires first < second <= |document| && HasNoTag(url) && Find(document, Script(url)).None?
    ensures Spliced(document, Some(first), Script(url)) != Spliced(document, Some(second), Script(url))
  {
    hide Spliced, Find, Script;
    var script := Script(url);
    ScriptTags(url);
    if Spliced(document, Some(first), script) == Spliced(document, Some(second), script) {
      if second - first < |script| {
        NearPlaces(document, first, second, script, 0);
        if second - first == |script| - 9 {
          NearPlaces(document, first, second, script, 1);
        }
      } else {
        FarPlaces(document, first, second, script);
      }
    }
  }

  /** The output is what it is for the document in one chunk, for every way to cut it into chunks that are text,
      exactly for the safe documents. */
  lemma OutputDoesNotChange(document: string, url: string)
    requires IsUtf8(document) && HasNoTag(url) && Find(document, Script(url)).None?
    ensures Safe(Lower(document)) <==>
      forall chunks | AreText(chunks) && Concat(chunks) == document ::
        Spliced(document, StreamPlace("", chunks), Script(url))
          == Spliced(document, Some(WholePlace(Lower(document))), Script(url))
  {
    hide IsUtf8, Lower, Safe, WholePlace, Concat, StreamPlace, Spliced, Script, Place, PlaceInTwo;
    ChunksDoNotMatter(document);
    if !Safe(Lower(document)) {
      var cut := UnsafeCut(document);
      RunInTwo(document, cut);
      PlacesAreInside(document, cut);
      var here, there := PlaceInTwo(document, cut), WholePlace(Lower(document));
      if here < there {
        ElsewhereIsDifferent(document, here, there, url);
      } else {
        ElsewhereIsDifferent(document, there, here, url);
      }
      assert Spliced(document, StreamPlace("", [document[..cut], document[cut..]]), Script(url))
        != Spliced(document, Some(there), Script(url));
    }
  }

  /** For every way to cut it whatever, exactly for the safe documents of ASCII alone. */
  lemma OutputOfBytes(document: string, url: string)
    requires HasNoTag(url) && Find(document, Script(url)).None?
    ensures Safe(Lower(document)) && IsAscii(document) <==>
      forall chunks | Concat(chunks) == document ::
        Spliced(document, StreamPlace("", chunks), Script(url))
          == Spliced(document, Some(WholePlace(Lower(document))), Script(url))
  {
    hide IsUtf8, IsAscii, Lower, Safe, WholePlace, Concat, StreamPlace, Spliced, Script, Place, PlaceInTwo;
    if IsAscii(document) {
      AsciiIsText(document);
      OutputDoesNotChange(document, url);
      BytesDoNotMatter(document);
    } else {
      var cut := CutCharacter(document);
      CutIsLost(document, cut);
      PlacesAreInside(document, cut);
      LostIsDifferent(document, WholePlace(Lower(document)), url);
    }
  }

  /** Without the script the output is another one. */
  lemma LostIsDifferent(document: string, place: nat, url: string)
    requires place <= |document|
    ensures Spliced(document, None, Script(url)) != Spliced(document, Some(place), Script(url))
  {
    assert |Spliced(document, Some(place), Script(url))| > |document|;
  }

  lemma PlacesAreInside(document: string, cut: nat)
    requires cut <= |document|
    ensures PlaceInTwo(document, cut) <= |document| && WholePlace(Lower(document)) <= |document|
  {
    hide PlaceIn;
  }
}
