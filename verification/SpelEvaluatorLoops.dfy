/**
 The loops of the evaluator (crates/spel/src/eval.rs) that push onto a local vector, proved to build
 what the recursive definitions say, stopping at the first error.
 */
module SpelEvaluatorLoops {
  import opened Wrappers
  import opened S = SpelSyntax
  import V = SpelValue
  import opened SpelValue
  import opened SpelEvaluator

  /** The values of which `done` have been pushed. */
  ghost function Pushed(done: seq<Value>, left: Outcome<seq<Value>>): Outcome<seq<Value>> {
    if left.Err? then left else Ok(done + left.value)
  }

  lemma PushedNothing(left: Outcome<seq<Value>>)
    ensures Pushed([], left) == left
  {
    if left.Ok? {
      assert [] + left.value == left.value;
    }
  }

  lemma PushedStep(done: seq<Value>, more: seq<Value>, left: Outcome<seq<Value>>)
    ensures Pushed(done, Pushed(more, left)) == Pushed(done + more, left)
  {
    if left.Ok? {
      assert done + (more + left.value) == (done + more) + left.value;
    }
  }

  method EvaluateArguments(host: Host, nodes: seq<Node>, this_: Option<Value>, depth: nat, limit: Option<nat>)
    returns (r: Outcome<seq<Value>>)
    ensures r == EvaluateAll(host, nodes, this_, depth, limit)
  {
    hide Evaluate;
    var values: seq<Value> := [];
    PushedNothing(EvaluateAll(host, nodes, this_, depth, limit));
    assert nodes[0..] == nodes;
    for i := 0 to |nodes|
      invariant EvaluateAll(host, nodes, this_, depth, limit)
             == Pushed(values, EvaluateAll(host, nodes[i..], this_, depth, limit))
    {
      assert nodes[i..][1..] == nodes[i + 1..];
      var value := Evaluate(host, nodes[i], this_, depth, limit);
      if value.Err? {
        return V.Err(value.error);
      }
      PushedStep(values, [value.value], EvaluateAll(host, nodes[i + 1..], this_, depth, limit));
      values := values + [value.value];
    }
    assert values + [] == values;
    r := Ok(values);
  }

  method Project(host: Host, items: seq<Value>, body: Node, depth: nat, limit: Option<nat>)
    returns (r: Outcome<seq<Value>>)
    ensures r == ProjectAll(host, items, body, depth, limit)
  {
    hide Evaluate;
    var result: seq<Value> := [];
    PushedNothing(ProjectAll(host, items, body, depth, limit));
    assert items[0..] == items;
    for i := 0 to |items|
      invariant ProjectAll(host, items, body, depth, limit)
             == Pushed(result, ProjectAll(host, items[i..], body, depth, limit))
    {
      assert items[i..][1..] == items[i + 1..];
      var value := Evaluate(host, body, Some(items[i]), depth, limit);
      if value.Err? {
        return V.Err(value.error);
      }
      PushedStep(result, [value.value], ProjectAll(host, items[i + 1..], body, depth, limit));
      result := result + [value.value];
    }
    assert result + [] == result;
    r := Ok(result);
  }

  method Select(host: Host, items: seq<Value>, body: Node, depth: nat, limit: Option<nat>)
    returns (r: Outcome<seq<Value>>)
    ensures r == SelectAll(host, items, body, depth, limit)
  {
    hide Evaluate, IsTruthy;
    var result: seq<Value> := [];
    PushedNothing(SelectAll(host, items, body, depth, limit));
    assert items[0..] == items;
    for i := 0 to |items|
      invariant SelectAll(host, items, body, depth, limit)
             == Pushed(result, SelectAll(host, items[i..], body, depth, limit))
    {
      assert items[i..][1..] == items[i + 1..];
      var value := Evaluate(host, body, Some(items[i]), depth, limit);
      if value.Err? {
        return V.Err(value.error);
      }
      if IsTruthy(host, value.value) {
        PushedStep(result, [items[i]], SelectAll(host, items[i + 1..], body, depth, limit));
        result := result + [items[i]];
      }
    }
    assert result + [] == result;
    r := Ok(result);
  }
}
