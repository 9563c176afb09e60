/**
 The reference the parser is measured against: printing a tree with as few parentheses as possible,
 the trees the grammar can produce, and the nesting that parsing a printed tree takes.
 None of it looks at how the parser works.
 */
module SpelPrinter {
  import opened Naturals
  import opened Wrappers
  import opened SpelSyntax
  import opened SpelTokens

  /** How tightly the outermost construct of a tree holds together. */
  function Level(node: Node): (l: nat)
    ensures l <= 8
  {
    match node
    case Elvis(_, _) => 0
    case Ternary(_, _, _) => 0
    case Binary(operator, _, _) => Precedence(operator)
    case Unary(_, _) => 7
    case _ => 8
  }

  function OperatorToken(operator: BinaryOperator): Token {
    match operator
    case Add => Symbol(Plus)
    case Subtract => Symbol(Minus)
    case Multiply => Symbol(Star)
    case Divide => Symbol(Slash)
    case Modulo => Symbol(Percent)
    case Equal => Symbol(EqualEqual)
    case NotEqual => Symbol(BangEqual)
    case Less => Symbol(LessThan)
    case LessOrEqual => Symbol(LessEqual)
    case Greater => Symbol(GreaterThan)
    case GreaterOrEqual => Symbol(GreaterEqual)
    case And => Symbol(AndAnd)
    case Or => Symbol(OrOr)
    case Matches => Identifier("matches")
  }

  /** Where the first part of a dotted name ends. */
  function PartEnd(name: string): (k: nat)
    ensures k <= |name|
    ensures k < |name| ==> name[k] == '.'
    ensures forall i :: 0 <= i < k ==> name[i] != '.'
  {
    if name == "" || name[0] == '.' then 0 else 1 + PartEnd(name[1..])
  }

  predicate IsTypeName(name: string)
    decreases |name|
  {
    var k := PartEnd(name);
    IsName(name[..k]) && (k < |name| ==> IsTypeName(name[k + 1..]))
  }

  function TypeNameTo(name: string, rest: seq<Token>): seq<Token>
    decreases |name|
  {
    var k := PartEnd(name);
    if k == |name| then [Identifier(name)] + rest
    else [Identifier(name[..k]), Symbol(Dot)] + TypeNameTo(name[k + 1..], rest)
  }

  /** The tokens of `node`, in parentheses if it binds less tightly than `minimum`, before `rest`. */
  function PrintTo(node: Node, minimum: nat, rest: seq<Token>): seq<Token>
    decreases node, 1
  {
    if Level(node) < minimum then
      [Symbol(OpenParen)] + BareTo(node, [Symbol(CloseParen)] + rest)
    else
      BareTo(node, rest)
  }

  function BareTo(node: Node, rest: seq<Token>): seq<Token>
    decreases node, 0
  {
    match node
    case Null => [Identifier("null")] + rest
    case Bool(b) => [Identifier(if b then "true" else "false")] + rest
    case Int(n) => [IntLiteral(n)] + rest
    case Float(digits) => [FloatLiteral(digits)] + rest
    case Str(text) => [Text(text)] + rest
    case Root(name) => [Identifier(name)] + rest
    case Variable(name) => [VariableName(name)] + rest
    case Bean(name) => [BeanName(name)] + rest
    case Type(name) =>
      [Identifier("T"), Symbol(OpenParen)] + TypeNameTo(name, [Symbol(CloseParen)] + rest)
    case Property(target, name, safe) =>
      PrintTo(target, 8, [DotToken(safe), Identifier(name)] + rest)
    case Index(target, index) =>
      PrintTo(target, 8, [Symbol(OpenBracket)] + PrintTo(index, 0, [Symbol(CloseBracket)] + rest))
    case Call(None, name, arguments, _) =>
      [Identifier(name), Symbol(OpenParen)] + ItemsTo(arguments, [Symbol(CloseParen)] + rest)
    case Call(Some(target), name, arguments, safe) =>
      PrintTo(target, 8, [DotToken(safe), Identifier(name), Symbol(OpenParen)] +
                         ItemsTo(arguments, [Symbol(CloseParen)] + rest))
    case Projection(target, body) =>
      PrintTo(target, 8, [Symbol(BangBracket)] + PrintTo(body, 0, [Symbol(CloseBracket)] + rest))
    case Selection(target, body) =>
      PrintTo(target, 8, [Symbol(QuestionBracket)] + PrintTo(body, 0, [Symbol(CloseBracket)] + rest))
    case Unary(operator, operand) =>
      [Symbol(if operator.Not? then Bang else Minus)] + PrintTo(operand, 7, rest)
    case Binary(operator, left, right) =>
      PrintTo(left, Precedence(operator),
              [OperatorToken(operator)] + PrintTo(right, Precedence(operator) + 1, rest))
    case Ternary(condition, then_, otherwise) =>
      PrintTo(condition, 1, [Symbol(Question)] +
              PrintTo(then_, 0, [Symbol(Colon)] + PrintTo(otherwise, 0, rest)))
    case Elvis(value, fallback) =>
      PrintTo(value, 1, [Symbol(Question2)] + PrintTo(fallback, 0, rest))
    case ListLiteral(items) =>
      [Symbol(OpenBrace)] + ItemsTo(items, [Symbol(CloseBrace)] + rest)
    case MapLiteral(entries) =>
      [Symbol(OpenBrace)] + EntriesTo(entries, [Symbol(CloseBrace)] + rest)
  }

  function DotToken(safe: bool): Token { Symbol(if safe then SafeDot else Dot) }

  function ItemsTo(items: seq<Node>, rest: seq<Token>): seq<Token>
    decreases items, 2
  {
    if items == [] then rest
    else if |items| == 1 then PrintTo(items[0], 0, rest)
    else PrintTo(items[0], 0, [Symbol(Comma)] + ItemsTo(items[1..], rest))
  }

  function EntriesTo(entries: seq<Entry>, rest: seq<Token>): seq<Token>
    decreases entries, 2
  {
    if entries == [] then rest else
    [Text(entries[0].key), Symbol(Colon)] +
    PrintTo(entries[0].value, 0, if |entries| == 1 then rest else [Symbol(Comma)] + EntriesTo(entries[1..], rest))
  }

  function Print(node: Node): seq<Token> { PrintTo(node, 0, []) }

  /** The number of nested `parse_unary` frames it takes to parse what `PrintTo` prints. */
  function Frames(node: Node, minimum: nat): (n: nat)
    decreases node, 1
    ensures n >= 1
  {
    (if Level(node) < minimum then 1 else 0) + BareFrames(node)
  }

  function BareFrames(node: Node): (n: nat)
    decreases node, 0
    ensures n >= 1
  {
    match node
    case Property(target, _, _) => Frames(target, 8)
    case Index(target, index) => Max(Frames(target, 8), 1 + Frames(index, 0))
    case Call(None, _, arguments, _) => 1 + ItemsFrames(arguments)
    case Call(Some(target), _, arguments, _) => Max(Frames(target, 8), 1 + ItemsFrames(arguments))
    case Projection(target, body) => Max(Frames(target, 8), 1 + Frames(body, 0))
    case Selection(target, body) => Max(Frames(target, 8), 1 + Frames(body, 0))
    case Unary(_, operand) => 1 + Frames(operand, 7)
    case Binary(operator, left, right) =>
      Max(Frames(left, Precedence(operator)), Frames(right, Precedence(operator) + 1))
    case Ternary(condition, then_, otherwise) =>
      Max(Frames(condition, 1), Max(Frames(then_, 0), Frames(otherwise, 0)))
    case Elvis(value, fallback) => Max(Frames(value, 1), Frames(fallback, 0))
    case ListLiteral(items) => 1 + ItemsFrames(items)
    case MapLiteral(entries) => 1 + EntriesFrames(entries)
    case _ => 1
  }

  function ItemsFrames(items: seq<Node>): nat
    decreases items, 2
  {
    if items == [] then 0 else Max(Frames(items[0], 0), ItemsFrames(items[1..]))
  }

  function EntriesFrames(entries: seq<Entry>): nat
    decreases entries, 2
  {
    if entries == [] then 0 else Max(Frames(entries[0].value, 0), EntriesFrames(entries[1..]))
  }

  /** Names that never reach the tree as a root property or helper call. */
  predicate IsReserved(name: string) {
    name == "true" || name == "false" || name == "null" || name == "new" || name == "not"
  }

  /** The trees that some expression denotes. */
  ghost predicate WellFormed(node: Node)
    decreases node, 0
  {
    match node
    case Null => true
    case Bool(_) => true
    case Int(n) => n < INT_LIMIT
    case Float(digits) => IsFloat(digits)
    case Str(_) => true
    case Root(name) => IsName(name) && !IsReserved(name)
    case Variable(name) => IsWord(name)
    case Bean(name) => IsWord(name)
    case Type(name) => IsTypeName(name)
    case Property(target, name, _) => WellFormed(target) && IsName(name)
    case Index(target, index) => WellFormed(target) && WellFormed(index)
    case Call(None, name, arguments, safe) =>
      IsName(name) && !IsReserved(name) && name != "T" && !safe && AllWellFormed(arguments)
    case Call(Some(target), name, arguments, _) =>
      WellFormed(target) && IsName(name) && AllWellFormed(arguments)
    case Projection(target, body) => WellFormed(target) && WellFormed(body)
    case Selection(target, body) => WellFormed(target) && WellFormed(body)
    case Unary(_, operand) => WellFormed(operand)
    case Binary(_, left, right) => WellFormed(left) && WellFormed(right)
    case Ternary(condition, then_, otherwise) =>
      WellFormed(condition) && WellFormed(then_) && WellFormed(otherwise)
    case Elvis(value, fallback) => WellFormed(value) && WellFormed(fallback)
    case ListLiteral(items) => AllWellFormed(items)
    case MapLiteral(entries) => entries != [] && AllEntriesWellFormed(entries)
  }

  ghost predicate AllWellFormed(items: seq<Node>)
    decreases items, 1
  {
    items == [] || (WellFormed(items[0]) && AllWellFormed(items[1..]))
  }

  ghost predicate AllEntriesWellFormed(entries: seq<Entry>)
    decreases entries, 1
  {
    entries == [] || (WellFormed(entries[0].value) && AllEntriesWellFormed(entries[1..]))
  }
}
