/** Equality of values as expressions and lists use it (crates/spel/src/eval.rs, value.rs). */
module SpelEquality {
  import V = SpelValue
  import opened SpelValue
  import opened SpelEvaluator

  ghost predicate FloatsAreSymmetric(host: Host) {
    forall a, b :: host.floatEquals(a, b) == host.floatEquals(b, a)
  }

  lemma {:induction false} SameIsSymmetric(host: Host, a: Value, b: Value)
    requires FloatsAreSymmetric(host)
    ensures Same(host, a, b) == Same(host, b, a)
    decreases a
  {
    if a.List? && b.List? && |a.items| == |b.items| {
      forall i | 0 <= i < |a.items|
        ensures Same(host, a.items[i], b.items[i]) == Same(host, b.items[i], a.items[i])
      {
        SameIsSymmetric(host, a.items[i], b.items[i]);
      }
    }
    if a.Map? && b.Map? && a.entries.Keys == b.entries.Keys {
      forall k | k in a.entries
        ensures Same(host, a.entries[k], b.entries[k]) == Same(host, b.entries[k], a.entries[k])
      {
        SameIsSymmetric(host, a.entries[k], b.entries[k]);
      }
    }
  }

  /** It does not matter which side of `==` a value is on, texts that are numbers included. */
  lemma EqualsIsSymmetric(host: Host, a: Value, b: Value)
    requires FloatsAreSymmetric(host)
    ensures Equals(host, a, b) == Equals(host, b, a)
  {
    SameIsSymmetric(host, a, b);
  }

  predicate IsFloatFree(value: Value)
    decreases value
  {
    match value
    case Float(_) => false
    case List(items) => forall i | 0 <= i < |items| :: IsFloatFree(items[i])
    case Map(entries) => forall k | k in entries :: IsFloatFree(entries[k])
    case _ => true
  }

  /** Values without floating point numbers in them equal themselves. */
  lemma {:induction false} EqualsItself(host: Host, value: Value)
    requires IsFloatFree(value)
    ensures Same(host, value, value) && Equals(host, value, value)
    decreases value
  {
    match value
    case List(items) =>
      forall i | 0 <= i < |items|
        ensures Same(host, items[i], items[i])
      {
        EqualsItself(host, items[i]);
      }
    case Map(entries) =>
      forall k | k in entries
        ensures Same(host, entries[k], entries[k])
      {
        EqualsItself(host, entries[k]);
      }
    case _ =>
  }

  /** A list contains what `indexOf` finds, and `get` of that position gives an equal item. */
  lemma ListMethodsAgree(host: Host, items: seq<Value>, value: Value)
    requires |items| < TWO_63
    ensures var found := ListMethod(host, items, "indexOf", [value]);
      && found.Ok? && found.value.Int?
      && ListMethod(host, items, "contains", [value]) == Ok(V.Bool(found.value.number >= 0))
      && (found.value.number >= 0 ==>
            var item := ListMethod(host, items, "get", [found.value]);
            item.Ok? && Equals(host, item.value, value))
  {
    hide Equals;
    var k := IndexOf(host, items, value);
    assert Wrap(k) == k;
  }
}
