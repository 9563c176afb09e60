/** What indexing finds (crates/spel/src/eval.rs), in terms of the expressions alone. */
module SpelIndexing {
  import opened Wrappers
  import opened S = SpelSyntax
  import V = SpelValue
  import opened SpelValue
  import opened SpelEvaluator
  import opened SpelMeaning

  /** Every node has a value. */
  predicate HaveValues(host: Host, nodes: seq<Node>, this_: Option<Value>) {
    forall i | 0 <= i < |nodes| :: Meaning(host, nodes[i], this_).Ok?
  }

  lemma {:induction false} ListValues(host: Host, nodes: seq<Node>, this_: Option<Value>, depth: nat)
    requires HaveValues(host, nodes, this_)
    ensures var values := EvaluateAll(host, nodes, this_, depth, None);
      && values.Ok? && |values.value| == |nodes|
      && forall i | 0 <= i < |nodes| :: Ok(values.value[i]) == Meaning(host, nodes[i], this_)
  {
    hide Evaluate;
    if nodes != [] {
      DepthIsIrrelevant(host, nodes[0], this_, depth);
      ListValues(host, nodes[1..], this_, depth);
    }
  }

  lemma ListMeans(host: Host, nodes: seq<Node>, this_: Option<Value>)
    requires HaveValues(host, nodes, this_)
    ensures var list := Meaning(host, ListLiteral(nodes), this_);
      && list.Ok? && list.value.List? && |list.value.items| == |nodes|
      && forall i | 0 <= i < |nodes| :: Ok(list.value.items[i]) == Meaning(host, nodes[i], this_)
  {
    hide HaveValues, EvaluateAll;
    ListValues(host, nodes, this_, 1);
  }

  lemma IndexMeans(host: Host, target: Node, index: Node, this_: Option<Value>)
    ensures var value, place := Meaning(host, target, this_), Meaning(host, index, this_);
      Meaning(host, Index(target, index), this_)
        == if value.Err? then value else if place.Err? then place else ReadIndex(host, value.value, place.value)
  {
    hide Evaluate, In, ReadIndex;
    DepthIsIrrelevant(host, target, this_, 1);
    DepthIsIrrelevant(host, index, this_, 1);
    IndexUnfolds(host, Index(target, index), this_, Room(0, None));
    InMeaning(host, Index(target, index), this_);
    InMeaning(host, target, this_);
    InMeaning(host, index, this_);
  }

  lemma InMeaning(host: Host, node: Node, this_: Option<Value>)
    ensures In(host, node, this_, Room(0, None)) == Meaning(host, node, this_)
    ensures In(host, node, this_, Room(0, None).Below()) == Evaluate(host, node, this_, 1, None)
  {
    hide Evaluate;
  }

  lemma NumberMeans(host: Host, n: nat, this_: Option<Value>)
    requires n < TWO_63
    ensures Meaning(host, S.Int(n), this_) == Ok(V.Int(n)) && Wrap(n) == n
    ensures var m: int := n; Meaning(host, Unary(Negate, S.Int(n)), this_) == Ok(V.Int(-m))
  {
    InRange(n);
    var m: int := n;
    InRange(-m);
    assert Evaluate(host, S.Int(n), this_, 1, None) == Ok(V.Int(n));
    NegationMeans(host, S.Int(n), this_);
  }

  lemma NegationMeans(host: Host, node: Node, this_: Option<Value>)
    ensures var value := Evaluate(host, node, this_, 1, None);
      value.Ok? ==> Meaning(host, Unary(Negate, node), this_) == Negated(host, value.value)
  {
    hide Negated;
  }

  lemma InRange(n: int)
    requires -TWO_63 <= n < TWO_63
    ensures Wrap(n) == n
  {
  }

  /** A list literal indexed by a number means what the node at that place means, and null behind the last. */
  lemma ElementOfList(host: Host, nodes: seq<Node>, i: nat, this_: Option<Value>)
    requires HaveValues(host, nodes, this_) && i < TWO_63
    ensures Meaning(host, Index(ListLiteral(nodes), S.Int(i)), this_)
         == if i < |nodes| then Meaning(host, nodes[i], this_) else Ok(V.Null)
  {
    hide Meaning, Evaluate, HaveValues;
    ListMeans(host, nodes, this_);
    NumberMeans(host, i, this_);
    IndexMeans(host, ListLiteral(nodes), S.Int(i), this_);
  }

  /** A negative number is no index of a list. */
  lemma NegativeIndex(host: Host, nodes: seq<Node>, i: nat, this_: Option<Value>)
    requires HaveValues(host, nodes, this_) && 0 < i < TWO_63
    ensures Meaning(host, Index(ListLiteral(nodes), Unary(Negate, S.Int(i))), this_) == V.Err(EVALUATION)
  {
    hide Meaning, Evaluate, HaveValues;
    ListMeans(host, nodes, this_);
    NumberMeans(host, i, this_);
    IndexMeans(host, ListLiteral(nodes), Unary(Negate, S.Int(i)), this_);
  }

  /** At the place that `indexOf` finds there is an equal item. */
  lemma ElementAtIndexOf(host: Host, list: Node, sought: Node, this_: Option<Value>)
    requires var items, value := Meaning(host, list, this_), Meaning(host, sought, this_);
      items.Ok? && items.value.List? && |items.value.items| < TWO_63 && value.Ok?
    ensures var place := Call(Some(list), "indexOf", [sought], false);
      var found := Meaning(host, place, this_);
      && found.Ok? && found.value.Int?
      && (found.value.number >= 0 ==>
            var item := Meaning(host, Index(list, place), this_);
            item.Ok? && Equals(host, item.value, Meaning(host, sought, this_).value))
      && (found.value.number < 0 ==>
            forall item | item in Meaning(host, list, this_).value.items ::
              !Equals(host, item, Meaning(host, sought, this_).value))
  {
    hide Evaluate, Equals, ReadIndex;
    var items, value := Meaning(host, list, this_).value.items, Meaning(host, sought, this_).value;
    var place := Call(Some(list), "indexOf", [sought], false);
    IndexOfMeans(host, list, sought, this_);
    IndexMeans(host, list, place, this_);
    PlaceInList(host, items, IndexOf(host, items, value));
  }

  lemma PlaceInList(host: Host, items: seq<Value>, k: int)
    requires -1 <= k < |items| < TWO_63
    ensures k >= 0 ==> ReadIndex(host, V.List(items), V.Int(k)) == Ok(items[k])
  {
  }

  lemma IndexOfMeans(host: Host, list: Node, sought: Node, this_: Option<Value>)
    requires var items, value := Meaning(host, list, this_), Meaning(host, sought, this_);
      items.Ok? && items.value.List? && |items.value.items| < TWO_63 && value.Ok?
    ensures var items, value := Meaning(host, list, this_).value.items, Meaning(host, sought, this_).value;
      Meaning(host, Call(Some(list), "indexOf", [sought], false), this_) == Ok(V.Int(IndexOf(host, items, value)))
  {
    hide IndexOf, Equals, Evaluate, EvaluateAll;
    var items, value := Meaning(host, list, this_).value.items, Meaning(host, sought, this_).value;
    DepthIsIrrelevant(host, list, this_, 1);
    OneArgument(host, sought, this_);
    if list.Type? {
      TypeIsText(host, list, this_);
    } else {
      MethodMeans(host, list, "indexOf", [sought], false, this_);
      InRange(IndexOf(host, items, value));
      assert [value][0] == value;
    }
  }

  lemma OneArgument(host: Host, node: Node, this_: Option<Value>)
    ensures var value := Meaning(host, node, this_);
      value.Ok? ==> EvaluateAll(host, [node], this_, 1, None) == Ok([value.value])
  {
    hide Evaluate;
    DepthIsIrrelevant(host, node, this_, 1);
    assert [node][1..] == [];
    assert EvaluateAll(host, [], this_, 1, None) == Ok([]);
    var value := Meaning(host, node, this_);
    if value.Ok? {
      assert [value.value] + [] == [value.value];
    }
  }

  lemma TypeIsText(host: Host, node: Node, this_: Option<Value>)
    requires node.Type?
    ensures Meaning(host, node, this_) == Ok(V.Str("T(" + node.typeName + ")"))
  {
  }

  lemma MethodMeans(
      host: Host, receiver: Node, name: string, arguments: seq<Node>, safe: bool, this_: Option<Value>)
    requires !receiver.Type?
    ensures var values := EvaluateAll(host, arguments, this_, 1, None);
      var target := Evaluate(host, receiver, this_, 1, None);
      values.Ok? ==>
        Meaning(host, Call(Some(receiver), name, arguments, safe), this_)
          == if target.Err? then target
             else if target.value.Null? then (if safe then Ok(V.Null) else V.Err(EVALUATION))
             else CallMethod(host, target.value, name, values.value)
  {
    hide EvaluateAll, CallMethod;
  }

  /** A text indexed by a number is its character there, or null behind the last. */
  lemma CharacterOfText(host: Host, text: string, i: nat, this_: Option<Value>)
    requires i < TWO_63
    ensures Meaning(host, Index(S.Str(text), S.Int(i)), this_)
         == Ok(if i < |text| then V.Str([text[i]]) else V.Null)
  {
    hide Meaning, Evaluate;
    TextMeans(host, text, this_);
    NumberMeans(host, i, this_);
    IndexMeans(host, S.Str(text), S.Int(i), this_);
  }

  lemma TextMeans(host: Host, text: string, this_: Option<Value>)
    ensures Meaning(host, S.Str(text), this_) == Ok(V.Str(text))
  {
  }

  /** Every entry has a value. */
  predicate HaveEntryValues(host: Host, entries: seq<S.Entry>, this_: Option<Value>) {
    forall i | 0 <= i < |entries| :: Meaning(host, entries[i].value, this_).Ok?
  }

  /** The last entry of a key. */
  predicate IsLast(entries: seq<S.Entry>, i: nat, key: string) {
    i < |entries| && entries[i].key == key && forall j | i < j < |entries| :: entries[j].key != key
  }

  lemma {:induction false} MapValues(host: Host, entries: seq<S.Entry>, this_: Option<Value>, depth: nat)
    requires HaveEntryValues(host, entries, this_)
    ensures var values := EvaluateEntries(host, entries, this_, depth, None);
      && values.Ok?
      && (forall i: nat, key | IsLast(entries, i, key) ::
            key in values.value && Ok(values.value[key]) == Meaning(host, entries[i].value, this_))
      && forall key | key in values.value :: exists entry :: entry in entries && entry.key == key
  {
    hide Evaluate;
    if entries != [] {
      var first, rest := entries[0], entries[1..];
      DepthIsIrrelevant(host, first.value, this_, depth);
      MapValues(host, rest, this_, depth);
      var values := EvaluateEntries(host, entries, this_, depth, None).value;
      forall i: nat, key | IsLast(entries, i, key)
        ensures key in values && Ok(values[key]) == Meaning(host, entries[i].value, this_)
      {
        if i > 0 {
          assert IsLast(rest, i - 1, key);
        } else {
          assert forall entry | entry in rest :: entry.key != key;
        }
      }
    }
  }

  /** A map literal indexed by a text is the last value written for that key, or null. */
  lemma ValueOfKey(host: Host, entries: seq<S.Entry>, key: string, this_: Option<Value>)
    requires HaveEntryValues(host, entries, this_) && host.display(V.Str(key)) == key
    ensures forall i: nat | IsLast(entries, i, key) ::
      Meaning(host, Index(MapLiteral(entries), S.Str(key)), this_) == Meaning(host, entries[i].value, this_)
    ensures (forall entry | entry in entries :: entry.key != key) ==>
      Meaning(host, Index(MapLiteral(entries), S.Str(key)), this_) == Ok(V.Null)
  {
    hide Evaluate, HaveEntryValues, IsLast;
    MapValues(host, entries, this_, 1);
    TextMeans(host, key, this_);
    MapMeans(host, entries, this_);
    IndexMeans(host, MapLiteral(entries), S.Str(key), this_);
  }

  lemma MapMeans(host: Host, entries: seq<S.Entry>, this_: Option<Value>)
    ensures var values := EvaluateEntries(host, entries, this_, 1, None);
      values.Ok? ==> Meaning(host, MapLiteral(entries), this_) == Ok(V.Map(values.value))
  {
    hide EvaluateEntries;
  }
}
