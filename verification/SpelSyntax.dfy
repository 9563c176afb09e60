/**
 Tokens and syntax trees of the expression language (crates/spel/src/ast.rs, lexer.rs).

 Punctuation is an enumeration; `Spelling` gives the text each symbol has in the lexer's table.
 A floating point literal is kept as its text.
 */
module SpelSyntax {
  import opened Wrappers

  datatype Punctuation =
    | SafeDot | Question2 | BangBracket | QuestionBracket
    | EqualEqual | BangEqual | LessEqual | GreaterEqual | AndAnd | OrOr
    | Plus | Minus | Star | Slash | Percent
    | OpenParen | CloseParen | OpenBracket | CloseBracket | OpenBrace | CloseBrace
    | Comma | Colon | Dot | Question | Bang | LessThan | GreaterThan

  datatype Token =
    | Identifier(name: string)
    | Text(text: string)
    | IntLiteral(number: nat)
    | FloatLiteral(digits: string)
    | VariableName(variable: string)
    | BeanName(bean: string)
    | Symbol(symbol: Punctuation)

  /** The categories of error (error.rs); parsing only produces the first two. */
  datatype ErrorKind = Syntax | Unsupported | Unknown | Evaluation

  datatype UnaryOperator = Not | Negate

  datatype BinaryOperator =
    | Add | Subtract | Multiply | Divide | Modulo
    | Equal | NotEqual | Less | LessOrEqual | Greater | GreaterOrEqual
    | And | Or | Matches

  datatype Node =
    | Null
    | Bool(truth: bool)
    | Int(number: nat)
    | Float(digits: string)
    | Str(text: string)
    | Root(root: string)
    | Variable(variable: string)
    | Bean(bean: string)
    | Type(typeName: string)
    | Property(target: Node, name: string, safe: bool)
    | Index(target: Node, index: Node)
    | Call(receiver: Option<Node>, name: string, arguments: seq<Node>, safe: bool)
    | Projection(target: Node, body: Node)
    | Selection(target: Node, body: Node)
    | Unary(unary: UnaryOperator, operand: Node)
    | Binary(binary: BinaryOperator, left: Node, right: Node)
    | Ternary(condition: Node, then_: Node, otherwise: Node)
    | Elvis(value: Node, fallback: Node)
    | ListLiteral(items: seq<Node>)
    | MapLiteral(entries: seq<Entry>)

  datatype Entry = Entry(key: string, value: Node)

  /** How tightly an operator holds its operands: `or` least, the multiplicative ones most. */
  function Precedence(operator: BinaryOperator): (p: nat)
    ensures 1 <= p <= 6
  {
    match operator
    case Or => 1
    case And => 2
    case Equal | NotEqual | Matches => 3
    case Less | LessOrEqual | Greater | GreaterOrEqual => 4
    case Add | Subtract => 5
    case Multiply | Divide | Modulo => 6
  }

  /** The binary operator a token stands for, in symbol or word form. */
  function OperatorOf(token: Token): Option<BinaryOperator>
  {
    match token
    case Symbol(Plus) => Some(Add)
    case Symbol(Minus) => Some(Subtract)
    case Symbol(Star) => Some(Multiply)
    case Symbol(Slash) => Some(Divide)
    case Symbol(Percent) => Some(Modulo)
    case Symbol(EqualEqual) => Some(Equal)
    case Symbol(BangEqual) => Some(NotEqual)
    case Symbol(LessThan) => Some(Less)
    case Symbol(LessEqual) => Some(LessOrEqual)
    case Symbol(GreaterThan) => Some(Greater)
    case Symbol(GreaterEqual) => Some(GreaterOrEqual)
    case Symbol(AndAnd) => Some(And)
    case Symbol(OrOr) => Some(Or)
    case Identifier(name) => WordOperator(name)
    case _ => None
  }

  function WordOperator(name: string): Option<BinaryOperator>
  {
    if name == "and" then Some(And)
    else if name == "or" then Some(Or)
    else if name == "eq" then Some(Equal)
    else if name == "ne" then Some(NotEqual)
    else if name == "lt" then Some(Less)
    else if name == "le" then Some(LessOrEqual)
    else if name == "gt" then Some(Greater)
    else if name == "ge" then Some(GreaterOrEqual)
    else if name == "matches" then Some(Matches)
    else None
  }
}

/** Which tokens the lexer can produce (crates/spel/src/lexer.rs), for ASCII text. */
module SpelTokens {
  import opened Decimals
  import opened SpelSyntax

  const INT_LIMIT: nat := 0x8000_0000_0000_0000

  predicate IsLetter(c: char) { 'a' <= c <= 'z' || 'A' <= c <= 'Z' }

  predicate IsNameStart(c: char) { IsLetter(c) || c == '_' || c == '$' }

  predicate IsNamePart(c: char) { IsNameStart(c) || IsDigit(c) }

  /** The ASCII characters Rust's `char::is_whitespace` accepts. */
  predicate IsSpace(c: char) { c == ' ' || 9 as char <= c <= 13 as char }

  predicate IsWord(s: string) { s != "" && forall i :: 0 <= i < |s| ==> IsNamePart(s[i]) }

  predicate IsName(s: string) { IsWord(s) && IsNameStart(s[0]) }

  /** Digits, a point, digits. */
  ghost predicate IsFloat(s: string) {
    exists i :: 0 <= i < |s| && s[i] == '.' && AllDigits(s[..i]) && AllDigits(s[i + 1..])
  }

  ghost predicate ValidToken(token: Token) {
    match token
    case Identifier(name) => IsName(name)
    case Text(_) => true
    case IntLiteral(n) => n < INT_LIMIT
    case FloatLiteral(digits) => IsFloat(digits)
    case VariableName(name) => IsWord(name)
    case BeanName(name) => IsWord(name)
    case Symbol(_) => true
  }

  ghost predicate ValidTokens(tokens: seq<Token>) {
    forall i :: 0 <= i < |tokens| ==> ValidToken(tokens[i])
  }
}
