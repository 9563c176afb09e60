/** Searching text for a marker, as Rust's `str::find` does. */
module TextSearch {
  import opened Wrappers

  predicate Occurs(text: string, marker: string, at: nat, end: nat)
    requires end <= |text|
  {
    at + |marker| <= end && text[at..at + |marker|] == marker
  }

  /** The first occurrence of the marker in text[start..end]. */
  function FindIn(text: string, marker: string, start: nat, end: nat): (r: Option<nat>)
    requires start <= end <= |text|
    ensures r.Some? ==> start <= r.value && r.value + |marker| <= end && Occurs(text, marker, r.value, end)
    ensures forall i :: start <= i < (if r.Some? then r.value else end + 1) ==> !Occurs(text, marker, i, end)
    decreases end - start
  {
    if Occurs(text, marker, start, end) then Some(start)
    else if start == end then None
    else FindIn(text, marker, start + 1, end)
  }

  function Find(text: string, marker: string): Option<nat> {
    FindIn(text, marker, 0, |text|)
  }
}
