/**
 Values and their conversions (crates/spel/src/value.rs, and the helpers at the end of eval.rs).

 Floating point numbers are opaque bit patterns, and everything that computes with them, with regular
 expressions or with objects of the embedding program is a function supplied by the `Host`.
 */
module SpelValue {
  import opened Ascii
  import opened Wrappers
  import opened Wraparound
  import Syntax = SpelSyntax

  const TWO_63: int := 0x8000_0000_0000_0000

  /** A signed 64-bit integer. */
  type Long = n: int | -0x8000_0000_0000_0000 <= n < 0x8000_0000_0000_0000

  datatype Value =
    | Null
    | Bool(truth: bool)
    | Int(number: Long)
    | Float(bits: nat)
    | Str(text: string)
    | List(items: seq<Value>)
    | Map(entries: map<string, Value>)
    | Object(id: nat)

  /** `TooDeep` is the evaluation error of the depth guard, told apart from every other one. */
  datatype Error = Failed(kind: Syntax.ErrorKind) | TooDeep

  datatype Outcome<+T> = Ok(value: T) | Err(error: Error) {
    predicate IsFailure() { Err? }

    function PropagateFailure<U>(): Outcome<U>
      requires Err?
    {
      Err(error)
    }

    function Extract(): T
      requires Ok?
    {
      value
    }
  }

  const EVALUATION: Error := Failed(Syntax.ErrorKind.Evaluation)
  const UNKNOWN: Error := Failed(Syntax.ErrorKind.Unknown)

  /** The context of an evaluation, and the parts of the program the model does not look into. */
  datatype Host = Host(
    root: map<string, Value>,
    variables: map<string, Value>,
    beans: map<string, Value>,
    display: Value -> string,
    parseLong: string -> Option<Long>,
    textToLong: string -> Option<Long>,
    floatLiteral: string -> nat,
    floatToLong: nat -> Long,
    floatTruthy: nat -> bool,
    floatNegate: nat -> nat,
    floatEquals: (Value, Value) -> bool,
    floatArithmetic: (Syntax.BinaryOperator, Value, Value) -> Outcome<Value>,
    compareNumbers: (Value, Value) -> Outcome<int>,
    matches: (string, string) -> Outcome<bool>,
    property: (Value, string) -> Outcome<Value>,
    index: (Value, Value) -> Outcome<Value>,
    helper: (string, seq<Value>) -> Outcome<Value>,
    method_: (Value, string, seq<Value>) -> Outcome<Value>,
    static_: (string, string, seq<Value>) -> Outcome<Value>)

  /** Two's complement wrap-around to 64 bits. */
  function Wrap(n: int): Long { Wrapped(n, TWO_63) }

  predicate EqualIgnoreCase(a: string, b: string) {
    |a| == |b| && forall i :: 0 <= i < |a| ==> LowerCase(a[i]) == LowerCase(b[i])
  }

  function AsBool(value: Value): Outcome<bool> {
    match value
    case Bool(b) => Ok(b)
    case Str(text) =>
      if EqualIgnoreCase(text, "true") then Ok(true)
      else if EqualIgnoreCase(text, "false") then Ok(false)
      else Err(EVALUATION)
    case Null => Ok(false)
    case _ => Err(EVALUATION)
  }

  function AsInt(host: Host, value: Value): Outcome<Long> {
    match value
    case Int(n) => Ok(n)
    case Float(bits) => Ok(host.floatToLong(bits))
    case Bool(b) => Ok(if b then 1 else 0)
    case Str(text) => if host.textToLong(text).Some? then Ok(host.textToLong(text).value) else Err(EVALUATION)
    case _ => Err(EVALUATION)
  }

  function AsList(value: Value): seq<Value> {
    match value
    case List(items) => items
    case Null => []
    case _ => [value]
  }

  predicate IsTruthy(host: Host, value: Value) {
    match value
    case Null => false
    case Bool(b) => b
    case Str(text) => text != ""
    case Int(n) => n != 0
    case Float(bits) => host.floatTruthy(bits)
    case List(items) => items != []
    case Map(entries) => entries != map[]
    case Object(_) => true
  }

  /** Equality of values, numbers across integer and floating point included. */
  predicate Same(host: Host, a: Value, b: Value)
    decreases a
  {
    match a
    case Null => b.Null?
    case Bool(x) => b.Bool? && x == b.truth
    case Int(x) => if b.Float? then host.floatEquals(a, b) else b.Int? && x == b.number
    case Float(_) => (b.Int? || b.Float?) && host.floatEquals(a, b)
    case Str(x) => b.Str? && x == b.text
    case List(xs) => b.List? && |xs| == |b.items| && forall i :: 0 <= i < |xs| ==> Same(host, xs[i], b.items[i])
    case Map(xs) => b.Map? && xs.Keys == b.entries.Keys && forall k :: k in xs ==> Same(host, xs[k], b.entries[k])
    case Object(x) => b.Object? && x == b.id
  }

  /** `equals`: a string and a number compare as numbers. */
  predicate Equals(host: Host, a: Value, b: Value) {
    if a.Str? && b.Int? then host.parseLong(a.text) == Some(b.number)
    else if a.Int? && b.Str? then host.parseLong(b.text) == Some(a.number)
    else Same(host, a, b)
  }

  /** The order of texts: by their first difference. */
  function CompareTexts(a: string, b: string): int {
    if a == "" || b == "" then |a| - |b|
    else if a[0] != b[0] then a[0] as int - b[0] as int
    else CompareTexts(a[1..], b[1..])
  }

  /** `compare`: texts among themselves, everything else as numbers. */
  function Compare(host: Host, a: Value, b: Value): Outcome<int> {
    if a.Str? && b.Str? then Ok(CompareTexts(a.text, b.text)) else host.compareNumbers(a, b)
  }
}
