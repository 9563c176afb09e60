/** Laws that relate different constructs of the language (crates/spel/src/eval.rs). */
module SpelLaws {
  import opened Wrappers
  import opened S = SpelSyntax
  import V = SpelValue
  import opened SpelValue
  import opened SpelEvaluator
  import opened SpelMeaning

  lemma TernaryUnfolds(host: Host, condition: Node, then_: Node, otherwise: Node, this_: Option<Value>)
    ensures var truth := Truth(Evaluate(host, condition, this_, 1, None));
      Meaning(host, Ternary(condition, then_, otherwise), this_)
        == if truth.Err? then V.Err(truth.error)
           else if truth.value then Evaluate(host, then_, this_, 1, None)
           else Evaluate(host, otherwise, this_, 1, None)
  {
    hide Apply, AsBool, AsInt, CallMethod, ReadIndex, ReadProperty, ReadVariable, Negated, Lookup, EvaluateAll,
      EvaluateEntries, ProjectAll, SelectAll, IsTruthy;
  }

  /** Negating the condition swaps the branches, errors included. */
  lemma NegatedConditionSwaps(host: Host, condition: Node, then_: Node, otherwise: Node, this_: Option<Value>)
    ensures Meaning(host, Ternary(Unary(Not, condition), then_, otherwise), this_)
         == Meaning(host, Ternary(condition, otherwise, then_), this_)
  {
    hide Evaluate;
    TernaryUnfolds(host, Unary(Not, condition), then_, otherwise, this_);
    TernaryUnfolds(host, condition, otherwise, then_, this_);
    NotUnfolds(host, condition, this_, 1);
    DepthIsIrrelevant(host, condition, this_, 1);
    DepthIsIrrelevant(host, condition, this_, 2);
  }

  /** `and` and `or` are conditions, as far as truth goes. */
  lemma LogicIsConditional(host: Host, left: Node, right: Node, this_: Option<Value>)
    ensures Truth(Meaning(host, Binary(And, left, right), this_))
         == Truth(Meaning(host, Ternary(left, right, S.Bool(false)), this_))
    ensures Truth(Meaning(host, Binary(Or, left, right), this_))
         == Truth(Meaning(host, Ternary(left, S.Bool(true), right), this_))
  {
    hide Evaluate;
    LogicUnfolds(host, And, left, right, this_, 0);
    LogicUnfolds(host, Or, left, right, this_, 0);
    TernaryUnfolds(host, left, right, S.Bool(false), this_);
    TernaryUnfolds(host, left, S.Bool(true), right, this_);
    BoolUnfolds(host, true, this_);
    BoolUnfolds(host, false, this_);
  }

  lemma BoolUnfolds(host: Host, b: bool, this_: Option<Value>)
    ensures Evaluate(host, S.Bool(b), this_, 1, None) == Ok(V.Bool(b))
  {
  }

  /** `e ?: null` is `e`. */
  lemma ElvisNull(host: Host, node: Node, this_: Option<Value>)
    ensures Meaning(host, Elvis(node, S.Null), this_) == Meaning(host, node, this_)
  {
    DepthIsIrrelevant(host, node, this_, 1);
    ElvisUnfolds(host, node, S.Null, this_);
  }

  lemma ElvisUnfolds(host: Host, first: Node, fallback: Node, this_: Option<Value>)
    ensures var value := Evaluate(host, first, this_, 1, None);
      Meaning(host, Elvis(first, fallback), this_)
        == if value.Err? || !value.value.Null? then value else Evaluate(host, fallback, this_, 1, None)
  {
  }

  /** Texts are in a total order. */
  lemma {:induction false} TextsAreOrdered(a: string, b: string, c: string)
    ensures CompareTexts(a, b) == 0 <==> a == b
    ensures CompareTexts(a, b) < 0 <==> CompareTexts(b, a) > 0
    ensures CompareTexts(a, b) < 0 && CompareTexts(b, c) < 0 ==> CompareTexts(a, c) < 0
    decreases |a| + |b| + |c|
  {
    if a != "" && b != "" {
      TextsAreOrdered(a[1..], b[1..], if c == "" then c else c[1..]);
      assert a == [a[0]] + a[1..] && b == [b[0]] + b[1..];
    }
  }

  predicate IsLess(host: Host, a: string, b: string) {
    Apply(host, Less, V.Str(a), V.Str(b)) == Ok(V.Bool(true))
  }

  lemma LessCompares(host: Host, a: string, b: string)
    ensures IsLess(host, a, b) <==> CompareTexts(a, b) < 0
  {
    hide CompareTexts;
  }

  /** Of two texts, if they are not equal, exactly one is less; and less is transitive. */
  lemma TextComparisons(host: Host, a: string, b: string, c: string)
    ensures a != b <==> IsLess(host, a, b) || IsLess(host, b, a)
    ensures !(IsLess(host, a, b) && IsLess(host, b, a))
    ensures IsLess(host, a, b) && IsLess(host, b, c) ==> IsLess(host, a, c)
  {
    hide IsLess, CompareTexts;
    TextsAreOrdered(a, b, c);
    TextsAreOrdered(b, a, c);
    LessCompares(host, a, b);
    LessCompares(host, b, a);
    LessCompares(host, b, c);
    LessCompares(host, a, c);
  }

  /** Safe navigation differs from plain navigation only for null, where it gives null instead of an error. */
  lemma SafeNavigation(host: Host, target: Node, name: string, this_: Option<Value>)
    ensures var plain, safe := Meaning(host, Property(target, name, false), this_),
        Meaning(host, Property(target, name, true), this_);
      if Meaning(host, target, this_) == Ok(V.Null) then plain == V.Err(EVALUATION) && safe == Ok(V.Null)
      else safe == plain
  {
    hide ReadProperty;
    DepthIsIrrelevant(host, target, this_, 1);
  }
}
