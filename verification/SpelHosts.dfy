/** What names and calls ask of the context, and what they make of null (crates/spel/src/eval.rs). */
module SpelHosts {
  import opened Wrappers
  import opened S = SpelSyntax
  import V = SpelValue
  import opened SpelValue
  import opened SpelEvaluator
  import opened SpelMeaning
  import opened SpelIndexing
  import opened SpelOperations

  function Known(values: map<string, Value>, name: string): Outcome<Value> {
    if name in values then Ok(values[name]) else V.Err(Failed(ErrorKind.Unknown))
  }

  /** Each kind of name is looked up in its own place, and is unknown if it is not there. */
  lemma NamesAreLookedUp(host: Host, name: string, this_: Option<Value>)
    ensures Meaning(host, Root(name), this_) == Known(host.root, name)
    ensures Meaning(host, Bean(name), this_) == Known(host.beans, name)
    ensures name !in {"this", "root"} || this_.None? ==>
      Meaning(host, Variable(name), this_) == Known(host.variables, name)
    ensures name in {"this", "root"} && this_.Some? ==> Meaning(host, Variable(name), this_) == Ok(this_.value)
    ensures Meaning(host, Type(name), this_) == Ok(V.Str("T(" + name + ")"))
  {
  }

  /** The values of the nodes, one by one. */
  ghost predicate AreValues(host: Host, nodes: seq<Node>, this_: Option<Value>, values: seq<Value>) {
    |values| == |nodes| && forall i | 0 <= i < |nodes| :: Meaning(host, nodes[i], this_) == Ok(values[i])
  }

  lemma ArgumentsEvaluate(host: Host, nodes: seq<Node>, this_: Option<Value>, values: seq<Value>)
    requires AreValues(host, nodes, this_, values)
    ensures EvaluateAll(host, nodes, this_, 1, None) == Ok(values)
  {
    hide Meaning, EvaluateAll;
    ListValues(host, nodes, this_, 1);
    assert EvaluateAll(host, nodes, this_, 1, None).value == values;
  }

  lemma FunctionMeans(host: Host, name: string, arguments: seq<Node>, safe: bool, this_: Option<Value>)
    ensures var values := EvaluateAll(host, arguments, this_, 1, None);
      values.Ok? ==> Meaning(host, Call(None, name, arguments, safe), this_) == host.helper(name, values.value)
  {
    hide EvaluateAll;
  }

  lemma StaticMeans(
      host: Host, typeName: string, name: string, arguments: seq<Node>, safe: bool, this_: Option<Value>)
    ensures var values := EvaluateAll(host, arguments, this_, 1, None);
      values.Ok? ==>
        Meaning(host, Call(Some(Type(typeName)), name, arguments, safe), this_)
          == host.static_(typeName, name, values.value)
  {
    hide EvaluateAll;
  }

  /** Functions, static methods, and methods of what the context knows are called with the values of all arguments. */
  lemma CallsAreAnswered(
      host: Host, receiver: Node, name: string, arguments: seq<Node>, safe: bool, this_: Option<Value>,
      values: seq<Value>)
    requires AreValues(host, arguments, this_, values)
    ensures Meaning(host, Call(None, name, arguments, safe), this_) == host.helper(name, values)
    ensures receiver.Type? ==>
      Meaning(host, Call(Some(receiver), name, arguments, safe), this_)
        == host.static_(receiver.typeName, name, values)
    ensures !receiver.Type? ==>
      var target := Meaning(host, receiver, this_);
      Meaning(host, Call(Some(receiver), name, arguments, safe), this_)
        == if target.Err? then target
           else if target.value.Null? then (if safe then Ok(V.Null) else V.Err(EVALUATION))
           else if target.value.Str? || target.value.Map? || target.value.Object? then
             host.method_(target.value, name, values)
           else CallMethod(host, target.value, name, values)
  {
    hide EvaluateAll, Meaning, Evaluate, ListMethod, Equals;
    ArgumentsEvaluate(host, arguments, this_, values);
    FunctionMeans(host, name, arguments, safe, this_);
    if receiver.Type? {
      StaticMeans(host, receiver.typeName, name, arguments, safe, this_);
    } else {
      DepthIsIrrelevant(host, receiver, this_, 1);
      MethodMeans(host, receiver, name, arguments, safe, this_);
    }
  }

  /** `equals` is `==`, and `toString` is what adding to the empty text makes of a value. */
  lemma MethodsAreOperators(host: Host, x: Node, y: Node, this_: Option<Value>)
    requires var a, b := Meaning(host, x, this_), Meaning(host, y, this_);
      a.Ok? && (a.value.Int? || a.value.Float? || a.value.Bool?) && b.Ok? && !x.Type?
    requires host.display(V.Str("")) == ""
    ensures Meaning(host, Call(Some(x), "equals", [y], false), this_) == Meaning(host, Binary(Equal, x, y), this_)
    ensures Meaning(host, Call(Some(x), "toString", [], false), this_)
         == Meaning(host, Binary(Add, S.Str(""), x), this_)
  {
    hide Meaning, Equals;
    var a, b := Meaning(host, x, this_).value, Meaning(host, y, this_).value;
    assert AreValues(host, [y], this_, [b]);
    assert AreValues(host, [], this_, []);
    CallsAreAnswered(host, x, "equals", [y], false, this_, [b]);
    CallsAreAnswered(host, x, "toString", [], false, this_, []);
    BinaryMeans(host, Equal, x, y, this_);
    TextMeans(host, "", this_);
    TextsAreJoined(host, S.Str(""), x, this_);
    assert "" + host.display(a) == host.display(a);
  }

  /** The pattern is on the right of `matches`. */
  lemma MatchesAsks(host: Host, x: Node, y: Node, this_: Option<Value>)
    requires Meaning(host, x, this_).Ok? && Meaning(host, y, this_).Ok?
    ensures var a, b := Meaning(host, x, this_).value, Meaning(host, y, this_).value;
      var matched := host.matches(host.display(a), host.display(b));
      Meaning(host, Binary(Matches, x, y), this_)
        == if matched.Err? then V.Err(matched.error) else Ok(V.Bool(matched.value))
  {
    hide Meaning;
    BinaryMeans(host, Matches, x, y, this_);
  }

  /** Null has null at every index, and a number or boolean has none. */
  lemma IndexOfScalar(host: Host, x: Node, y: Node, this_: Option<Value>, a: Value)
    requires Meaning(host, x, this_) == Ok(a) && (a.Null? || a.Int? || a.Float? || a.Bool?)
    requires Meaning(host, y, this_).Ok?
    ensures Meaning(host, Index(x, y), this_) == if a.Null? then Ok(V.Null) else V.Err(EVALUATION)
  {
    hide Meaning;
    IndexMeans(host, x, y, this_);
  }

  /** `get` of a list is its index, but takes a negative number for zero. */
  lemma GetOfList(host: Host, list: Node, items: seq<Value>, n: Node, i: Long, this_: Option<Value>)
    requires Meaning(host, list, this_) == Ok(V.List(items)) && !list.Type? && IsInt(host, n, this_, i)
    ensures Meaning(host, Call(Some(list), "get", [n], false), this_)
         == if i < 0 then Ok(if items == [] then V.Null else items[0]) else Meaning(host, Index(list, n), this_)
  {
    hide Meaning;
    assert AreValues(host, [n], this_, [V.Int(i)]);
    CallsAreAnswered(host, list, "get", [n], false, this_, [V.Int(i)]);
    IndexMeans(host, list, n, this_);
  }

  /** The host says where a floating point number points to. */
  lemma IndexByFloat(host: Host, x: Node, y: Node, z: Node, this_: Option<Value>, bits: nat)
    requires Meaning(host, x, this_).Ok? && Meaning(host, y, this_) == Ok(V.Float(bits))
    requires !Meaning(host, x, this_).value.Map? && !Meaning(host, x, this_).value.Object?
    requires IsInt(host, z, this_, host.floatToLong(bits))
    ensures Meaning(host, Index(x, y), this_) == Meaning(host, Index(x, z), this_)
  {
    hide Meaning;
    IndexMeans(host, x, y, this_);
    IndexMeans(host, x, z, this_);
  }

  /** A text counts as the number that it is read as, and one that is not is an error. */
  lemma TextsCount(
      host: Host, operator: BinaryOperator, x: Node, y: Node, z: Node, this_: Option<Value>, text: string, n: Long)
    requires operator in {Subtract, Multiply, Divide, Modulo} && IsInt(host, z, this_, n)
    requires Meaning(host, x, this_) == Ok(V.Str(text))
    ensures match host.textToLong(text)
            case None => Meaning(host, Binary(operator, x, z), this_) == V.Err(EVALUATION)
            case Some(m) =>
              IsInt(host, y, this_, m) ==>
                Meaning(host, Binary(operator, x, z), this_) == Meaning(host, Binary(operator, y, z), this_)
  {
    hide Meaning, Arithmetic;
    BinaryMeans(host, operator, x, z, this_);
    BinaryMeans(host, operator, y, z, this_);
  }

  /** Arithmetic with a floating point number is that of the host, and so are its sign and its literals. */
  lemma FloatsAreLeftToHost(
      host: Host, operator: BinaryOperator, x: Node, y: Node, this_: Option<Value>, digits: string)
    requires var a, b := Meaning(host, x, this_), Meaning(host, y, this_);
      a.Ok? && b.Ok? && (a.value.Float? || b.value.Float?) && !a.value.Str? && !b.value.Str?
    requires IsArithmetic(operator)
    ensures var a, b := Meaning(host, x, this_).value, Meaning(host, y, this_).value;
      && Meaning(host, Binary(operator, x, y), this_) == host.floatArithmetic(operator, a, b)
      && (a.Float? ==> Meaning(host, Unary(Negate, x), this_) == Ok(V.Float(host.floatNegate(a.bits))))
      && Meaning(host, Binary(Equal, x, y), this_)
           == Ok(V.Bool((a.Int? || a.Float?) && (b.Int? || b.Float?) && host.floatEquals(a, b)))
      && Meaning(host, S.Float(digits), this_) == Ok(V.Float(host.floatLiteral(digits)))
  {
    hide Evaluate;
    BinaryMeans(host, operator, x, y, this_);
    BinaryMeans(host, Equal, x, y, this_);
    DepthIsIrrelevant(host, x, this_, 1);
    NegationMeans(host, x, this_);
    FloatLiteralMeans(host, digits, this_);
  }

  lemma FloatLiteralMeans(host: Host, digits: string, this_: Option<Value>)
    ensures Meaning(host, S.Float(digits), this_) == Ok(V.Float(host.floatLiteral(digits)))
  {
  }

  /** A text has its first character at every negative index; indexes and properties of objects are the host's. */
  lemma IndexOfTextAndObject(host: Host, x: Node, y: Node, this_: Option<Value>)
    requires Meaning(host, x, this_).Ok? && Meaning(host, y, this_).Ok?
    ensures var a, b := Meaning(host, x, this_).value, Meaning(host, y, this_).value;
      && (a.Object? ==> Meaning(host, Index(x, y), this_) == host.index(a, b))
      && (a.Str? && b.Int? && b.number < 0 ==>
            Meaning(host, Index(x, y), this_) == Ok(if a.text == "" then V.Null else V.Str([a.text[0]])))
  {
    hide Meaning;
    IndexMeans(host, x, y, this_);
  }

  lemma PropertyOfOther(host: Host, x: Node, name: string, this_: Option<Value>, a: Value)
    requires Meaning(host, x, this_) == Ok(a) && !x.Type? && !a.Null? && !a.Map?
    ensures a.Object? ==> Meaning(host, Property(x, name, false), this_) == host.property(a, name)
    ensures !a.Object? && !(name in {"empty", "length"} && (a.Str? || a.List?)) && !(name == "size" && a.List?) ==>
      Meaning(host, Property(x, name, false), this_) == V.Err(UNKNOWN)
  {
    hide Meaning;
    MemberMeans(host, x, name, this_, a);
  }

  /** The methods of a list, and how many arguments they take. */
  const LIST_METHODS: set<(string, nat)> := {
    ("size", 0), ("length", 0), ("isEmpty", 0), ("contains", 1), ("containsAll", 1), ("get", 1), ("indexOf", 1),
    ("stream", 0), ("toString", 0)}

  lemma OtherMethodsAreUnknown(host: Host, value: Value, name: string, values: seq<Value>)
    ensures value.Null? ==> CallMethod(host, value, name, values) == V.Err(UNKNOWN)
    ensures value.List? && (name, |values|) !in LIST_METHODS ==> CallMethod(host, value, name, values) == V.Err(UNKNOWN)
    ensures value.Int? || value.Float? || value.Bool? ==>
      var known := name == "toString" || (name, |values|) == ("equals", 1);
      var answer := CallMethod(host, value, name, values);
      answer.Ok? == known && (!known ==> answer == V.Err(UNKNOWN))
    ensures value.List? ==> CallMethod(host, value, "toString", []) == Ok(V.Str(host.display(value)))
  {
    hide Equals;
  }

  // Errors.

  /** The first node without a value, and its error. */
  predicate FailsFirst(host: Host, nodes: seq<Node>, this_: Option<Value>, i: nat, error: Error) {
    && i < |nodes| && Meaning(host, nodes[i], this_) == V.Err(error)
    && forall j | 0 <= j < i :: Meaning(host, nodes[j], this_).Ok?
  }

  lemma {:induction false} FirstErrorOf(host: Host, nodes: seq<Node>, this_: Option<Value>, i: nat, error: Error)
    requires FailsFirst(host, nodes, this_, i, error)
    ensures EvaluateAll(host, nodes, this_, 1, None) == V.Err(error)
  {
    hide Meaning;
    DepthIsIrrelevant(host, nodes[0], this_, 1);
    if i > 0 {
      FirstErrorOf(host, nodes[1..], this_, i - 1, error);
    }
  }

  /** The first error among the items of a list or the arguments of a call is the error of the whole; those of the
      arguments come before that of the receiver. */
  lemma FirstErrorCounts(
      host: Host, nodes: seq<Node>, this_: Option<Value>, i: nat, error: Error, receiver: Option<Node>, name: string,
      safe: bool)
    requires FailsFirst(host, nodes, this_, i, error)
    ensures Meaning(host, ListLiteral(nodes), this_) == V.Err(error)
    ensures Meaning(host, Call(receiver, name, nodes, safe), this_) == V.Err(error)
  {
    hide EvaluateAll, FailsFirst, CallMethod;
    FirstErrorOf(host, nodes, this_, i, error);
  }

  lemma {:induction false} FirstErrorOfEntries(
      host: Host, entries: seq<S.Entry>, this_: Option<Value>, i: nat, error: Error)
    requires i < |entries| && Meaning(host, entries[i].value, this_) == V.Err(error)
    requires forall j | 0 <= j < i :: Meaning(host, entries[j].value, this_).Ok?
    ensures EvaluateEntries(host, entries, this_, 1, None) == V.Err(error)
  {
    hide Meaning;
    DepthIsIrrelevant(host, entries[0].value, this_, 1);
    if i > 0 {
      FirstErrorOfEntries(host, entries[1..], this_, i - 1, error);
    }
  }

  /** So it is among the entries of a map. */
  lemma FirstErrorOfMap(host: Host, entries: seq<S.Entry>, this_: Option<Value>, i: nat, error: Error)
    requires i < |entries| && Meaning(host, entries[i].value, this_) == V.Err(error)
    requires forall j | 0 <= j < i :: Meaning(host, entries[j].value, this_).Ok?
    ensures Meaning(host, MapLiteral(entries), this_) == V.Err(error)
  {
    hide EvaluateEntries;
    FirstErrorOfEntries(host, entries, this_, i, error);
  }
}
