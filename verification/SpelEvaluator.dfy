/**
 Evaluation of syntax trees (crates/spel/src/eval.rs).

 `limit` is the greatest depth at which a node is evaluated: Some(MAX_DEPTH) in the original, None for
 the meaning of an expression without a depth guard.
 */
module SpelEvaluator {
  import opened Wrappers
  import opened S = SpelSyntax
  import V = SpelValue
  import opened SpelValue

  const MAX_DEPTH: nat := 64

  function Magnitude(n: int): nat { if n < 0 then -n else n }

  function TruncatedQuotient(a: int, b: int): int
    requires b != 0
  {
    if (a < 0) == (b < 0) then Magnitude(a) / Magnitude(b) else -(Magnitude(a) / Magnitude(b))
  }

  function TruncatedRemainder(a: int, b: int): int
    requires b != 0
  {
    a - TruncatedQuotient(a, b) * b
  }

  /** Integer arithmetic: wrapping, and truncating towards zero. */
  function Arithmetic(operator: BinaryOperator, a: Long, b: Long): Outcome<Value>
    requires operator in {Add, Subtract, Multiply, Divide, Modulo}
  {
    match operator
    case Add => Ok(V.Int(Wrap(a + b)))
    case Subtract => Ok(V.Int(Wrap(a - b)))
    case Multiply => Ok(V.Int(Wrap(a * b)))
    case Divide => if b == 0 then V.Err(EVALUATION) else Ok(V.Int(Wrap(TruncatedQuotient(a, b))))
    case Modulo => if b == 0 then V.Err(EVALUATION) else Ok(V.Int(Wrap(TruncatedRemainder(a, b))))
  }

  /** A binary operator that evaluates both operands. */
  function Apply(host: Host, operator: BinaryOperator, left: Value, right: Value): Outcome<Value>
    requires operator != And && operator != Or
  {
    match operator
    case Equal => Ok(V.Bool(Equals(host, left, right)))
    case NotEqual => Ok(V.Bool(!Equals(host, left, right)))
    case Matches =>
      var matched :- host.matches(host.display(left), host.display(right));
      Ok(V.Bool(matched))
    case Less | LessOrEqual | Greater | GreaterOrEqual =>
      var order :- Compare(host, left, right);
      Ok(V.Bool(match operator
                case Less => order < 0
                case LessOrEqual => order <= 0
                case Greater => order > 0
                case _ => order >= 0))
    case Add | Subtract | Multiply | Divide | Modulo =>
      if operator == Add && (left.Str? || right.Str?) then Ok(V.Str(host.display(left) + host.display(right)))
      else if left.Float? || right.Float? then host.floatArithmetic(operator, left, right)
      else
        var a :- AsInt(host, left);
        var b :- AsInt(host, right);
        Arithmetic(operator, a, b)
  }

  function Lookup(values: map<string, Value>, name: string): Outcome<Value> {
    if name in values then Ok(values[name]) else V.Err(UNKNOWN)
  }

  function GetOrNull(items: seq<Value>, index: int): Value {
    if 0 <= index < |items| then items[index] else V.Null
  }

  /** `target.name`. */
  function ReadProperty(host: Host, target: Value, name: string): Outcome<Value> {
    match target
    case Map(entries) => Ok(if name in entries then entries[name] else V.Null)
    case Object(_) => host.property(target, name)
    case Str(text) =>
      if name == "length" then Ok(V.Int(Wrap(|text|)))
      else if name == "empty" then Ok(V.Bool(text == ""))
      else V.Err(UNKNOWN)
    case List(items) =>
      if name == "length" || name == "size" then Ok(V.Int(Wrap(|items|)))
      else if name == "empty" then Ok(V.Bool(items == []))
      else V.Err(UNKNOWN)
    case _ => V.Err(UNKNOWN)
  }

  /** `target[index]`. */
  function ReadIndex(host: Host, target: Value, index: Value): Outcome<Value> {
    match target
    case Map(entries) =>
      var key := host.display(index);
      Ok(if key in entries then entries[key] else V.Null)
    case List(items) =>
      var position :- AsInt(host, index);
      if position < 0 then V.Err(EVALUATION) else Ok(GetOrNull(items, position))
    case Str(text) =>
      var position :- AsInt(host, index);
      var place := if position < 0 then 0 else position;
      Ok(if place < |text| then V.Str([text[place]]) else V.Null)
    case Object(_) => host.index(target, index)
    case Null => Ok(V.Null)
    case _ => V.Err(EVALUATION)
  }

  /** The position of the first item that equals `value`, or -1. */
  function IndexOf(host: Host, items: seq<Value>, value: Value): (k: int)
    ensures -1 <= k < |items|
    ensures k >= 0 ==> Equals(host, items[k], value)
    ensures forall i :: 0 <= i < (if k < 0 then |items| else k) ==> !Equals(host, items[i], value)
  {
    if items == [] then -1
    else if Equals(host, items[0], value) then 0
    else
      var k := IndexOf(host, items[1..], value);
      if k < 0 then -1 else k + 1
  }

  function ListMethod(host: Host, items: seq<Value>, name: string, arguments: seq<Value>): Outcome<Value> {
    if |arguments| == 0 && (name == "size" || name == "length") then Ok(V.Int(Wrap(|items|)))
    else if |arguments| == 0 && name == "isEmpty" then Ok(V.Bool(items == []))
    else if |arguments| == 1 && name == "contains" then
      Ok(V.Bool(exists i :: 0 <= i < |items| && Equals(host, items[i], arguments[0])))
    else if |arguments| == 1 && name == "containsAll" then
      Ok(V.Bool(forall j :: 0 <= j < |AsList(arguments[0])| ==>
                  exists i :: 0 <= i < |items| && Equals(host, items[i], AsList(arguments[0])[j])))
    else if |arguments| == 1 && name == "get" then
      var position :- AsInt(host, arguments[0]);
      Ok(GetOrNull(items, if position < 0 then 0 else position))
    else if |arguments| == 1 && name == "indexOf" then Ok(V.Int(Wrap(IndexOf(host, items, arguments[0]))))
    else if |arguments| == 0 && name == "stream" then Ok(V.List(items))
    else if |arguments| == 0 && name == "toString" then Ok(V.Str(host.display(V.List(items))))
    else V.Err(UNKNOWN)
  }

  function CallMethod(host: Host, target: Value, name: string, arguments: seq<Value>): Outcome<Value> {
    match target
    case List(items) => ListMethod(host, items, name, arguments)
    case Int(_) | Float(_) | Bool(_) =>
      if name == "toString" then Ok(V.Str(host.display(target)))
      else if name == "equals" && |arguments| == 1 then Ok(V.Bool(Equals(host, target, arguments[0])))
      else V.Err(UNKNOWN)
    case Null => V.Err(UNKNOWN)
    case _ => host.method_(target, name, arguments)
  }

  function ReadVariable(host: Host, name: string, this_: Option<Value>): Outcome<Value> {
    if (name == "this" || name == "root") && this_.Some? then Ok(this_.value)
    else Lookup(host.variables, name)
  }

  function Negated(host: Host, value: Value): Outcome<Value> {
    match value
    case Int(n) => var m: int := n; Ok(V.Int(Wrap(-m)))
    case Float(bits) => Ok(V.Float(host.floatNegate(bits)))
    case _ => V.Err(EVALUATION)
  }

  function Evaluate(host: Host, node: Node, this_: Option<Value>, depth: nat, limit: Option<nat>): Outcome<Value>
    decreases node, 0
  {
    if limit.Some? && depth > limit.value then V.Err(TooDeep) else
    match node
    case Null => Ok(V.Null)
    case Bool(b) => Ok(V.Bool(b))
    case Int(n) => Ok(V.Int(Wrap(n)))
    case Float(digits) => Ok(V.Float(host.floatLiteral(digits)))
    case Str(text) => Ok(V.Str(text))
    case Root(name) => Lookup(host.root, name)
    case Variable(name) => ReadVariable(host, name, this_)
    case Bean(name) => Lookup(host.beans, name)
    case Type(name) => Ok(V.Str("T(" + name + ")"))
    case Property(target, name, safe) =>
      var value :- Evaluate(host, target, this_, depth + 1, limit);
      if value.Null? then (if safe then Ok(V.Null) else V.Err(EVALUATION))
      else ReadProperty(host, value, name)
    case Index(target, index) =>
      var value :- Evaluate(host, target, this_, depth + 1, limit);
      var place :- Evaluate(host, index, this_, depth + 1, limit);
      ReadIndex(host, value, place)
    case Call(receiver, name, arguments, safe) =>
      var values :- EvaluateAll(host, arguments, this_, depth + 1, limit);
      match receiver {
        case None => host.helper(name, values)
        case Some(Type(typeName)) => host.static_(typeName, name, values)
        case Some(target) =>
          var value :- Evaluate(host, target, this_, depth + 1, limit);
          if value.Null? then (if safe then Ok(V.Null) else V.Err(EVALUATION))
          else CallMethod(host, value, name, values)
      }
    case Projection(target, body) =>
      var value :- Evaluate(host, target, this_, depth + 1, limit);
      var items :- ProjectAll(host, AsList(value), body, depth + 1, limit);
      Ok(V.List(items))
    case Selection(target, body) =>
      var value :- Evaluate(host, target, this_, depth + 1, limit);
      var items :- SelectAll(host, AsList(value), body, depth + 1, limit);
      Ok(V.List(items))
    case Unary(Not, operand) =>
      var value :- Evaluate(host, operand, this_, depth + 1, limit);
      var truth :- AsBool(value);
      Ok(V.Bool(!truth))
    case Unary(Negate, operand) =>
      var value :- Evaluate(host, operand, this_, depth + 1, limit);
      Negated(host, value)
    case Binary(operator, left, right) =>
      var a :- Evaluate(host, left, this_, depth + 1, limit);
      if operator.And? || operator.Or? then
        var first :- AsBool(a);
        if first == operator.Or? then Ok(V.Bool(first)) else
        var b :- Evaluate(host, right, this_, depth + 1, limit);
        var second :- AsBool(b);
        Ok(V.Bool(second))
      else
        var b :- Evaluate(host, right, this_, depth + 1, limit);
        Apply(host, operator, a, b)
    case Ternary(condition, then_, otherwise) =>
      var value :- Evaluate(host, condition, this_, depth + 1, limit);
      var truth :- AsBool(value);
      if truth then Evaluate(host, then_, this_, depth + 1, limit)
      else Evaluate(host, otherwise, this_, depth + 1, limit)
    case Elvis(first, fallback) =>
      var value :- Evaluate(host, first, this_, depth + 1, limit);
      if value.Null? then Evaluate(host, fallback, this_, depth + 1, limit) else Ok(value)
    case ListLiteral(items) =>
      var values :- EvaluateAll(host, items, this_, depth + 1, limit);
      Ok(V.List(values))
    case MapLiteral(entries) =>
      var values :- EvaluateEntries(host, entries, this_, depth + 1, limit);
      Ok(V.Map(values))
  }

  function EvaluateAll(host: Host, nodes: seq<Node>, this_: Option<Value>, depth: nat, limit: Option<nat>)
    : Outcome<seq<Value>>
    decreases nodes, 1
  {
    if nodes == [] then Ok([]) else
    var value :- Evaluate(host, nodes[0], this_, depth, limit);
    var values :- EvaluateAll(host, nodes[1..], this_, depth, limit);
    Ok([value] + values)
  }

  /** The entries in order, a repeated key keeping its last value. */
  function EvaluateEntries(host: Host, entries: seq<Entry>, this_: Option<Value>, depth: nat, limit: Option<nat>)
    : Outcome<map<string, Value>>
    decreases entries, 1
  {
    if entries == [] then Ok(map[]) else
    var value :- Evaluate(host, entries[0].value, this_, depth, limit);
    var values :- EvaluateEntries(host, entries[1..], this_, depth, limit);
    Ok(map[entries[0].key := value] + values)
  }

  function ProjectAll(host: Host, items: seq<Value>, body: Node, depth: nat, limit: Option<nat>): Outcome<seq<Value>>
    decreases body, 1 + |items|
  {
    if items == [] then Ok([]) else
    var value :- Evaluate(host, body, Some(items[0]), depth, limit);
    var values :- ProjectAll(host, items[1..], body, depth, limit);
    Ok([value] + values)
  }

  function SelectAll(host: Host, items: seq<Value>, body: Node, depth: nat, limit: Option<nat>): Outcome<seq<Value>>
    decreases body, 1 + |items|
  {
    if items == [] then Ok([]) else
    var value :- Evaluate(host, body, Some(items[0]), depth, limit);
    var values :- SelectAll(host, items[1..], body, depth, limit);
    Ok(if IsTruthy(host, value) then [items[0]] + values else values)
  }
}
