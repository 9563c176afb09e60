/**
 What each function of the recursive descent parser (crates/spel/src/parser.rs) makes of the tokens
 that are left: the tree it builds and the tokens it leaves, or the kind of error it reports.
 The imperative parser is proved against these functions in SpelParser.
 */
module SpelGrammar {
  import opened Wrappers
  import opened SpelSyntax

  const MAX_NESTING: nat := 64

  datatype Parsed<+T> = Ok(value: T, rest: seq<Token>) | Err(kind: ErrorKind) {
    predicate IsFailure() { Err? }

    function PropagateFailure<U>(): Parsed<U>
      requires Err?
    {
      Err(kind)
    }

    function Extract(): (T, seq<Token>)
      requires Ok?
    {
      (value, rest)
    }
  }

  predicate Starts(tokens: seq<Token>, symbol: Punctuation) {
    tokens != [] && tokens[0] == Symbol(symbol)
  }

  function Expect(tokens: seq<Token>, symbol: Punctuation): (r: Parsed<()>)
    ensures r.Ok? ==> |r.rest| < |tokens|
  {
    if Starts(tokens, symbol) then Ok((), tokens[1..]) else Err(Syntax)
  }

  function PeekOperator(tokens: seq<Token>): Option<BinaryOperator> {
    if tokens == [] then None else OperatorOf(tokens[0])
  }

  function Floor(minimum: nat): nat { if minimum == 0 then 1 else minimum }

  function Expression(tokens: seq<Token>, depth: int, minimum: nat): (r: Parsed<Node>)
    decreases |tokens|, 5
    ensures r.Ok? ==> |r.rest| < |tokens|
  {
    var (left, rest) :- UnaryExpression(tokens, depth);
    ExpressionTail(left, rest, depth, minimum)
  }

  /** The loop of `parse_expression`: extends `left` for as long as the next token allows. */
  function ExpressionTail(left: Node, tokens: seq<Token>, depth: int, minimum: nat): (r: Parsed<Node>)
    decreases |tokens|, 4
    ensures r.Ok? ==> |r.rest| <= |tokens|
  {
    if minimum == 0 && Starts(tokens, Question2) then
      var (fallback, rest) :- Expression(tokens[1..], depth, 0);
      ExpressionTail(Elvis(left, fallback), rest, depth, minimum)
    else if minimum == 0 && Starts(tokens, Question) then
      var (then_, rest1) :- Expression(tokens[1..], depth, 0);
      var (_, rest2) :- Expect(rest1, Colon);
      var (otherwise, rest) :- Expression(rest2, depth, 0);
      ExpressionTail(Ternary(left, then_, otherwise), rest, depth, minimum)
    else
      match PeekOperator(tokens)
      case None => Ok(left, tokens)
      case Some(operator) =>
        if Precedence(operator) < Floor(minimum) then Ok(left, tokens) else
        var (right, rest) :- Expression(tokens[1..], depth, Precedence(operator) + 1);
        ExpressionTail(Binary(operator, left, right), rest, depth, minimum)
  }

  function UnaryExpression(tokens: seq<Token>, depth: int): (r: Parsed<Node>)
    decreases |tokens|, 4
    ensures r.Ok? ==> |r.rest| < |tokens|
  {
    if depth >= MAX_NESTING then Err(Syntax) else UnaryOperand(tokens, depth + 1)
  }

  function UnaryOperand(tokens: seq<Token>, depth: int): (r: Parsed<Node>)
    decreases |tokens|, 3
    ensures r.Ok? ==> |r.rest| < |tokens|
  {
    if Starts(tokens, Bang) || (tokens != [] && tokens[0] == Identifier("not")) then
      var (operand, rest) :- UnaryExpression(tokens[1..], depth);
      Ok(Unary(Not, operand), rest)
    else if Starts(tokens, Minus) then
      var (operand, rest) :- UnaryExpression(tokens[1..], depth);
      Ok(Unary(Negate, operand), rest)
    else
      Postfix(tokens, depth)
  }

  function Postfix(tokens: seq<Token>, depth: int): (r: Parsed<Node>)
    decreases |tokens|, 2
    ensures r.Ok? ==> |r.rest| < |tokens|
  {
    var (node, rest) :- Primary(tokens, depth);
    PostfixTail(node, rest, depth)
  }

  /** An expression in square brackets, after the opening bracket. */
  function Bracketed(tokens: seq<Token>, depth: int): (r: Parsed<Node>)
    decreases |tokens|, 6
    ensures r.Ok? ==> |r.rest| < |tokens|
  {
    var (inner, rest) :- Expression(tokens, depth, 0);
    var (_, rest) :- Expect(rest, CloseBracket);
    Ok(inner, rest)
  }

  /** A node and what the bracket that starts with `open` adds to it. */
  function WithBody(node: Node, open: Punctuation, body: Node): Node {
    if open == BangBracket then Projection(node, body)
    else if open == QuestionBracket then Selection(node, body)
    else Index(node, body)
  }

  /** The loop of `parse_postfix`. */
  function PostfixTail(node: Node, tokens: seq<Token>, depth: int): (r: Parsed<Node>)
    decreases |tokens|, 1
    ensures r.Ok? ==> |r.rest| <= |tokens|
  {
    if Starts(tokens, BangBracket) then
      var (body, rest) :- Bracketed(tokens[1..], depth);
      PostfixTail(Projection(node, body), rest, depth)
    else if Starts(tokens, QuestionBracket) then
      var (body, rest) :- Bracketed(tokens[1..], depth);
      PostfixTail(Selection(node, body), rest, depth)
    else if Starts(tokens, OpenBracket) then
      var (index, rest) :- Bracketed(tokens[1..], depth);
      PostfixTail(Index(node, index), rest, depth)
    else if Starts(tokens, SafeDot) || Starts(tokens, Dot) then
      var safe := Starts(tokens, SafeDot);
      if |tokens| == 1 || !tokens[1].Identifier? then Err(Syntax) else
      var name := tokens[1].name;
      if Starts(tokens[2..], OpenParen) then
        var (arguments, rest) :- Arguments(tokens[3..], depth);
        PostfixTail(Call(Some(node), name, arguments, safe), rest, depth)
      else
        PostfixTail(Property(node, name, safe), tokens[2..], depth)
    else
      Ok(node, tokens)
  }

  /** The arguments of a call and its closing parenthesis, after the opening one. */
  function Arguments(tokens: seq<Token>, depth: int): (r: Parsed<seq<Node>>)
    decreases |tokens|, 7
    ensures r.Ok? ==> |r.rest| < |tokens|
  {
    if Starts(tokens, CloseParen) then Ok([], tokens[1..]) else Items(tokens, depth, CloseParen)
  }

  /** One or more expressions separated by commas, and the symbol that closes them. */
  function Items(tokens: seq<Token>, depth: int, close: Punctuation): (r: Parsed<seq<Node>>)
    decreases |tokens|, 6
    ensures r.Ok? ==> |r.rest| < |tokens|
  {
    var (first, rest) :- Expression(tokens, depth, 0);
    if Starts(rest, Comma) then
      var (others, rest) :- Items(rest[1..], depth, close);
      Ok([first] + others, rest)
    else
      var (_, rest) :- Expect(rest, close);
      Ok([first], rest)
  }

  function Primary(tokens: seq<Token>, depth: int): (r: Parsed<Node>)
    decreases |tokens|, 1
    ensures r.Ok? ==> |r.rest| < |tokens|
  {
    if tokens == [] then Err(Syntax) else
    match tokens[0]
    case IntLiteral(n) => Ok(Int(n), tokens[1..])
    case FloatLiteral(digits) => Ok(Float(digits), tokens[1..])
    case Text(text) => Ok(Str(text), tokens[1..])
    case VariableName(name) => Ok(Variable(name), tokens[1..])
    case BeanName(name) => Ok(Bean(name), tokens[1..])
    case Symbol(OpenParen) =>
      var (node, rest) :- Expression(tokens[1..], depth, 0);
      var (_, rest) :- Expect(rest, CloseParen);
      Ok(node, rest)
    case Symbol(OpenBrace) => InlineCollection(tokens[1..], depth)
    case Symbol(_) => Err(Syntax)
    case Identifier(name) => Named(name, tokens[1..], depth)
  }

  /** A primary that starts with a name; `tokens` follow the name. */
  function Named(name: string, tokens: seq<Token>, depth: int): (r: Parsed<Node>)
    decreases |tokens|, 8
    ensures r.Ok? ==> |r.rest| <= |tokens|
  {
    if name == "true" then Ok(Bool(true), tokens)
    else if name == "false" then Ok(Bool(false), tokens)
    else if name == "null" then Ok(Null, tokens)
    else if name == "new" then Err(Unsupported)
    else if Starts(tokens, OpenParen) then
      if name == "T" then
        var (typeName, rest) :- TypeName(tokens[1..]);
        var (_, rest) :- Expect(rest, CloseParen);
        Ok(Type(typeName), rest)
      else
        var (arguments, rest) :- Arguments(tokens[1..], depth);
        Ok(Call(None, name, arguments, false), rest)
    else Ok(Root(name), tokens)
  }

  /** A possibly qualified type name. */
  function TypeName(tokens: seq<Token>): (r: Parsed<string>)
    ensures r.Ok? ==> |r.rest| < |tokens|
  {
    if tokens == [] || !tokens[0].Identifier? then Err(Syntax) else
    if Starts(tokens[1..], Dot) then
      var (others, rest) :- TypeName(tokens[2..]);
      Ok(tokens[0].name + "." + others, rest)
    else
      Ok(tokens[0].name, tokens[1..])
  }

  /** The key a token can be in a map literal. */
  function MapKey(tokens: seq<Token>): Option<string> {
    if tokens != [] && tokens[0].Identifier? then Some(tokens[0].name)
    else if tokens != [] && tokens[0].Text? then Some(tokens[0].text)
    else None
  }

  predicate StartsEntry(tokens: seq<Token>) {
    MapKey(tokens).Some? && Starts(tokens[1..], Colon)
  }

  /** An inline list or map, after the opening brace. */
  function InlineCollection(tokens: seq<Token>, depth: int): (r: Parsed<Node>)
    decreases |tokens|, 7
    ensures r.Ok? ==> |r.rest| < |tokens|
  {
    if Starts(tokens, CloseBrace) then Ok(ListLiteral([]), tokens[1..])
    else if StartsEntry(tokens) then
      var (entries, rest) :- Entries(tokens, depth);
      Ok(MapLiteral(entries), rest)
    else
      var (items, rest) :- Items(tokens, depth, CloseBrace);
      Ok(ListLiteral(items), rest)
  }

  /** One or more `key: value` entries and the closing brace. */
  function Entries(tokens: seq<Token>, depth: int): (r: Parsed<seq<Entry>>)
    decreases |tokens|, 6
    ensures r.Ok? ==> |r.rest| < |tokens|
  {
    if !StartsEntry(tokens) then Err(Syntax) else
    var (value, rest) :- Expression(tokens[2..], depth, 0);
    var entry := Entry(MapKey(tokens).value, value);
    if Starts(rest, Comma) then
      var (others, rest) :- Entries(rest[1..], depth);
      Ok([entry] + others, rest)
    else
      var (_, rest) :- Expect(rest, CloseBrace);
      Ok([entry], rest)
  }

  /** `parse` on tokens: an expression, and nothing after it. */
  function Parse(tokens: seq<Token>): Parsed<Node> {
    var (node, rest) :- Expression(tokens, 0, 0);
    if rest == [] then Ok(node, []) else Err(Syntax)
  }

  // One step of each loop.

  /** The branches of a ternary and what follows it. */
  function TernaryTail(left: Node, tokens: seq<Token>, d: int): Parsed<Node> {
    var then_ := Expression(tokens, d, 0);
    if then_.Err? then then_
    else if !Starts(then_.rest, Colon) then Err(Syntax)
    else
      var otherwise := Expression(then_.rest[1..], d, 0);
      if otherwise.Err? then otherwise
      else ExpressionTail(Ternary(left, then_.value, otherwise.value), otherwise.rest, d, 0)
  }

  lemma TailUnfolds(left: Node, tokens: seq<Token>, d: int, minimum: nat)
    ensures ExpressionTail(left, tokens, d, minimum) ==
      if minimum == 0 && Starts(tokens, Question2) then
        var fallback := Expression(tokens[1..], d, 0);
        if fallback.Err? then fallback else ExpressionTail(Elvis(left, fallback.value), fallback.rest, d, 0)
      else if minimum == 0 && Starts(tokens, Question) then TernaryTail(left, tokens[1..], d)
      else if PeekOperator(tokens).Some? && Precedence(PeekOperator(tokens).value) >= Floor(minimum) then
        var operator := PeekOperator(tokens).value;
        var right := Expression(tokens[1..], d, Precedence(operator) + 1);
        if right.Err? then right else ExpressionTail(Binary(operator, left, right.value), right.rest, d, minimum)
      else Ok(left, tokens)
  {
    hide Expression;
  }

  lemma ItemsUnfold(tokens: seq<Token>, d: int, close: Punctuation)
    ensures Items(tokens, d, close) ==
      var item := Expression(tokens, d, 0);
      if item.Err? then Err(item.kind)
      else if Starts(item.rest, Comma) then
        var others := Items(item.rest[1..], d, close);
        if others.Err? then others else Ok([item.value] + others.value, others.rest)
      else if Starts(item.rest, close) then Ok([item.value], item.rest[1..])
      else Err(Syntax)
  {
    hide Expression;
  }

  lemma EntriesUnfold(tokens: seq<Token>, d: int)
    ensures Entries(tokens, d) ==
      if !StartsEntry(tokens) then Err(Syntax)
      else
        var value := Expression(tokens[2..], d, 0);
        if value.Err? then Err(value.kind)
        else
          var entry := Entry(MapKey(tokens).value, value.value);
          if Starts(value.rest, Comma) then
            var others := Entries(value.rest[1..], d);
            if others.Err? then others else Ok([entry] + others.value, others.rest)
          else if Starts(value.rest, CloseBrace) then Ok([entry], value.rest[1..])
          else Err(Syntax)
  {
    hide Expression;
  }

  lemma TypeUnfolds(tokens: seq<Token>, d: int)
    requires |tokens| >= 2 && tokens[0] == Identifier("T") && Starts(tokens[1..], OpenParen)
    ensures Primary(tokens, d) ==
      var name := TypeName(tokens[2..]);
      if name.Err? then Err(name.kind)
      else if Starts(name.rest, CloseParen) then Ok(Type(name.value), name.rest[1..]) else Err(Syntax)
  {
    hide TypeName, Arguments, Expression;
    assert tokens[1..][1..] == tokens[2..];
  }

  lemma BracketUnfolds(node: Node, tokens: seq<Token>, d: int)
    requires tokens != [] && tokens[0] in {Symbol(OpenBracket), Symbol(BangBracket), Symbol(QuestionBracket)}
    ensures var body := Bracketed(tokens[1..], d);
      PostfixTail(node, tokens, d)
        == if body.Err? then Err(body.kind) else PostfixTail(WithBody(node, tokens[0].symbol, body.value), body.rest, d)
  {
    hide Bracketed, Arguments;
  }

  lemma MemberUnfolds(node: Node, tokens: seq<Token>, d: int)
    requires Starts(tokens, Dot) || Starts(tokens, SafeDot)
    ensures PostfixTail(node, tokens, d) ==
      var safe := Starts(tokens, SafeDot);
      if |tokens| == 1 || !tokens[1].Identifier? then Err(Syntax)
      else if Starts(tokens[2..], OpenParen) then
        var arguments := Arguments(tokens[3..], d);
        if arguments.Err? then Err(arguments.kind)
        else PostfixTail(Call(Some(node), tokens[1].name, arguments.value, safe), arguments.rest, d)
      else PostfixTail(Property(node, tokens[1].name, safe), tokens[2..], d)
  {
    hide Bracketed, Arguments;
  }
}
