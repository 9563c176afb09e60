/**
 Runs of the injector (crates/containerproxy/src/dataplane/inject.rs): what a whole run sends, and for
 which documents the way they are cut into chunks makes no difference.
 */
module ScriptChunks {
  import opened Wrappers
  import opened Utf8
  import opened ScriptPlacement
  import opened ScriptInjection

  function Concat(chunks: seq<string>): string {
    if chunks == [] then "" else chunks[0] + Concat(chunks[1..])
  }

  /** Where a run puts the script that has read `seen` and found no place there; None if it leaves it out. */
  function StreamPlace(seen: string, chunks: seq<string>): (r: Option<nat>)
    ensures r.Some? ==> r.value <= |seen| + |Concat(chunks)|
    decreases |chunks|
  {
    if chunks == [] then Some(|seen|)
    else if !IsUtf8(chunks[0]) then None
    else
      var next := seen + chunks[0];
      var found := PlaceIn(Lower(next), Keep(seen), |next|);
      if found.Some? then found else StreamPlace(next, chunks[1..])
  }

  lemma {:induction false} ConcatSnoc(chunks: seq<string>, i: nat)
    requires i < |chunks|
    ensures Concat(chunks[..i + 1]) == Concat(chunks[..i]) + chunks[i]
  {
    if i == 0 {
      assert chunks[..1] == [chunks[0]];
      assert Concat([chunks[0]]) == chunks[0] + Concat([]);
    } else {
      ConcatSnoc(chunks[1..], i - 1);
      assert chunks[1..][..i] == chunks[..i + 1][1..];
      assert chunks[1..][..i - 1] == chunks[..i][1..];
    }
  }

  /** What a whole run sends. */
  function Output(url: string, chunks: seq<string>): string {
    Spliced(Concat(chunks), StreamPlace("", chunks), Script(url))
  }

  /** A whole response: nothing is lost, and the script goes in exactly once, or not at all when a chunk that
      is not text came before a place for it. */
  method InjectAll(url: string, chunks: seq<string>) returns (output: string)
    ensures output == Output(url, chunks)
  {
    hide IsUtf8, PlaceIn, Keep, Spliced, Script;
    var injector := new ScriptInjector(url);
    output := "";
    var i := 0;
    while i < |chunks|
      invariant i <= |chunks| && fresh(injector) && injector.Valid()
      invariant injector.document == Concat(chunks[..i]) && injector.sent == output
      invariant StreamPlace("", chunks)
             == if injector.injected then injector.place else StreamPlace(injector.document, chunks[i..])
    {
      ConcatSnoc(chunks, i);
      assert chunks[i..][1..] == chunks[i + 1..];
      var sent := injector.Push(chunks[i]);
      output := output + sent;
      i := i + 1;
    }
    assert chunks[..i] == chunks;
    var last := injector.Finish();
    output := output + last;
  }
}
