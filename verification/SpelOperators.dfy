/**
 How operators are written and how they group, spelled out in text (crates/spel/src/ast.rs, lexer.rs, parser.rs).
 */
module SpelOperators {
  import opened Wrappers
  import opened SpelSyntax
  import opened SpelTokens
  import opened SpelGrammar
  import opened SpelPrinter
  import opened SpelRoundTrip
  import opened SpelLexer
  import opened SpelText
  import opened SpelFrontEnd

  datatype Spelled = Spelled(text: string, operator: BinaryOperator)

  /** Every operator, in symbols and in words. */
  const OPERATORS: seq<Spelled> := [
    Spelled("||", Or), Spelled("or", Or), Spelled("&&", And), Spelled("and", And),
    Spelled("==", Equal), Spelled("eq", Equal), Spelled("!=", NotEqual), Spelled("ne", NotEqual),
    Spelled("matches", Matches), Spelled("<", Less), Spelled("lt", Less), Spelled("<=", LessOrEqual),
    Spelled("le", LessOrEqual), Spelled(">", Greater), Spelled("gt", Greater), Spelled(">=", GreaterOrEqual),
    Spelled("ge", GreaterOrEqual), Spelled("+", Add), Spelled("-", Subtract), Spelled("*", Multiply),
    Spelled("/", Divide), Spelled("%", Modulo)]

  /** The operators, the loosest first. */
  const TIERS: seq<set<BinaryOperator>> := [
    {Or},
    {And},
    {Equal, NotEqual, Matches},
    {Less, LessOrEqual, Greater, GreaterOrEqual},
    {Add, Subtract},
    {Multiply, Divide, Modulo}]

  predicate IsTighter(q: BinaryOperator, p: BinaryOperator) {
    exists i, j :: 0 <= i < j < |TIERS| && p in TIERS[i] && q in TIERS[j]
  }

  /** Two operators between three names: the tighter one first, and of one tier the left one. */
  lemma OperatorsGroup(x: string, first: nat, y: string, second: nat, z: string)
    requires first < |OPERATORS| && second < |OPERATORS|
    requires IsOperand(x) && IsOperand(y) && IsOperand(z)
    ensures var p, q := OPERATORS[first], OPERATORS[second];
      ParseText(x + " " + p.text + " " + y + " " + q.text + " " + z)
        == Ok(if IsTighter(q.operator, p.operator)
              then Binary(p.operator, Root(x), Binary(q.operator, Root(y), Root(z)))
              else Binary(q.operator, Binary(p.operator, Root(x), Root(y)), Root(z)), [])
  {
    hide Lex, Parse, Render, RenderToken, ValidToken, Precedence, IsTighter, OPERATORS;
    var p, q := OPERATORS[first], OPERATORS[second];
    var s := OperatorTokens(first);
    var t := OperatorTokens(second);
    var tokens := [Identifier(x), s, Identifier(y), t, Identifier(z)];
    NameTokens(x);
    NameTokens(y);
    NameTokens(z);
    LexRender(tokens);
    RenderFive(Identifier(x), s, Identifier(y), t, Identifier(z));
    LevelsAreTiers(p.operator, q.operator);
    GroupTokens(x, s, y, t, z, p.operator, q.operator);
  }

  /** A name that can be an operand. */
  predicate IsOperand(name: string) {
    IsName(name) && name !in {"true", "false", "null", "new", "not"}
  }

  lemma NameTokens(name: string)
    requires IsOperand(name)
    ensures ValidToken(Identifier(name)) && RenderToken(Identifier(name)) == name
  {
  }

  lemma OperatorTokens(i: nat) returns (token: Token)
    requires i < |OPERATORS|
    ensures OperatorOf(token) == Some(OPERATORS[i].operator)
    ensures ValidToken(token) && RenderToken(token) == OPERATORS[i].text
  {
    hide OPERATORS, OperatorOf, ValidToken, RenderToken;
    if i in WORDS {
      token := Identifier(OPERATORS[i].text);
      WordToken(i);
    } else {
      token := OperatorToken(OPERATORS[i].operator);
      MarkToken(i);
    }
  }

  /** Which of the operators are words. */
  const WORDS: set<nat> := {1, 3, 5, 7, 8, 10, 12, 14, 16}

  lemma WordToken(i: nat)
    requires i in WORDS && i < |OPERATORS|
    ensures var token := Identifier(OPERATORS[i].text);
      OperatorOf(token) == Some(OPERATORS[i].operator) && ValidToken(token) && RenderToken(token) == OPERATORS[i].text
  {
    hide OPERATORS, WORDS, OperatorOf, IsName;
    if i < 10 {
      EarlierWord(i);
    } else {
      LaterWord(i);
    }
  }

  lemma EarlierWord(i: nat)
    requires i in WORDS && i < 10
    ensures var name := OPERATORS[i].text;
      OperatorOf(Identifier(name)) == Some(OPERATORS[i].operator) && IsName(name)
  {
  }

  lemma LaterWord(i: nat)
    requires i in WORDS && 10 <= i < |OPERATORS|
    ensures var name := OPERATORS[i].text;
      OperatorOf(Identifier(name)) == Some(OPERATORS[i].operator) && IsName(name)
  {
  }

  lemma MarkToken(i: nat)
    requires i !in WORDS && i < |OPERATORS|
    ensures var token := OperatorToken(OPERATORS[i].operator);
      OperatorOf(token) == Some(OPERATORS[i].operator) && ValidToken(token) && RenderToken(token) == OPERATORS[i].text
  {
    hide OPERATORS, WORDS, OperatorOf, RenderToken, ValidToken, OperatorToken;
    MarkOf(OPERATORS[i].operator);
    if i < 10 {
      EarlierMark(i);
    } else {
      LaterMark(i);
    }
  }

  lemma MarkOf(operator: BinaryOperator)
    ensures OperatorOf(OperatorToken(operator)) == Some(operator)
    ensures operator != Matches ==> ValidToken(OperatorToken(operator))
  {
  }

  lemma EarlierMark(i: nat)
    requires i !in WORDS && i < 10
    ensures OPERATORS[i].operator != Matches
    ensures RenderToken(OperatorToken(OPERATORS[i].operator)) == OPERATORS[i].text
  {
  }

  lemma LaterMark(i: nat)
    requires i !in WORDS && 10 <= i < |OPERATORS|
    ensures OPERATORS[i].operator != Matches
    ensures RenderToken(OperatorToken(OPERATORS[i].operator)) == OPERATORS[i].text
  {
  }

  lemma LevelsAreTiers(p: BinaryOperator, q: BinaryOperator)
    ensures IsTighter(q, p) <==> Precedence(p) < Precedence(q)
  {
    LevelIsTier(p);
    LevelIsTier(q);
    if Precedence(p) < Precedence(q) {
      assert p in TIERS[Precedence(p) - 1] && q in TIERS[Precedence(q) - 1];
    }
  }

  lemma LevelIsTier(p: BinaryOperator)
    ensures forall i | 0 <= i < |TIERS| :: p in TIERS[i] <==> i == Precedence(p) - 1
  {
  }

  lemma RenderFive(a: Token, b: Token, c: Token, d: Token, e: Token)
    ensures Render([a, b, c, d, e])
         == RenderToken(a) + " " + RenderToken(b) + " " + RenderToken(c) + " " + RenderToken(d) + " " + RenderToken(e)
  {
    hide RenderToken;
    assert [a, b, c, d, e][1..] == [b, c, d, e] && [b, c, d, e][1..] == [c, d, e];
    assert [c, d, e][1..] == [d, e] && [d, e][1..] == [e];
    assert Render([d, e]) == RenderToken(d) + " " + RenderToken(e);
    assert Render([c, d, e]) == RenderToken(c) + " " + Render([d, e]);
    assert Render([b, c, d, e]) == RenderToken(b) + " " + Render([c, d, e]);
  }

  lemma GroupTokens(x: string, s: Token, y: string, t: Token, z: string, p: BinaryOperator, q: BinaryOperator)
    requires IsOperand(x) && IsOperand(y) && IsOperand(z)
    requires OperatorOf(s) == Some(p) && OperatorOf(t) == Some(q)
    ensures Parse([Identifier(x), s, Identifier(y), t, Identifier(z)])
         == Ok(if Precedence(p) < Precedence(q) then Binary(p, Root(x), Binary(q, Root(y), Root(z)))
               else Binary(q, Binary(p, Root(x), Root(y)), Root(z)), [])
  {
    hide Expression, ExpressionTail, Precedence, OperatorOf;
    var last := [t, Identifier(z)];
    var middle := [Identifier(y)] + last;
    assert [Identifier(x), s, Identifier(y), t, Identifier(z)] == [Identifier(x)] + ([s] + middle);
    NameOperand(x, [s] + middle, 0);
    OneOperator(Root(x), s, middle, 0, p);
    NameOperand(y, last, Precedence(p) + 1);
    assert last == [t] + [Identifier(z)];
    NameLast(z, Precedence(q) + 1);
    if Precedence(p) < Precedence(q) {
      OneOperator(Root(y), t, [Identifier(z)], Precedence(p) + 1, q);
      TailOfNothing(Binary(q, Root(y), Root(z)), Precedence(p) + 1);
      TailOfNothing(Binary(p, Root(x), Binary(q, Root(y), Root(z))), 0);
    } else {
      LooserStops(Root(y), t, [Identifier(z)], Precedence(p) + 1, q);
      OneOperator(Binary(p, Root(x), Root(y)), t, [Identifier(z)], 0, q);
      TailOfNothing(Binary(q, Binary(p, Root(x), Root(y)), Root(z)), 0);
    }
  }

  /** A name before something that is no suffix. */
  lemma NameOperand(name: string, rest: seq<Token>, minimum: nat)
    requires IsOperand(name) && rest != [] && OperatorOf(rest[0]).Some?
    ensures Expression([Identifier(name)] + rest, 0, minimum) == ExpressionTail(Root(name), rest, 0, minimum)
  {
    hide ExpressionTail, UnaryExpression;
    ParsesUnary(Root(name), rest, 0);
    assert PrintTo(Root(name), 7, rest) == [Identifier(name)] + rest;
  }

  lemma NameLast(name: string, minimum: nat)
    requires IsOperand(name) && 1 <= minimum
    ensures Expression([Identifier(name)], 0, minimum) == Ok(Root(name), [])
  {
    hide ExpressionTail, UnaryExpression;
    ParsesUnary(Root(name), [], 0);
    assert PrintTo(Root(name), 7, []) == [Identifier(name)] + [] == [Identifier(name)];
    TailOfNothing(Root(name), minimum);
  }

  lemma TailOfNothing(node: Node, minimum: nat)
    ensures ExpressionTail(node, [], 0, minimum) == Ok(node, [])
  {
    hide Expression;
  }

  lemma OneOperator(left: Node, token: Token, tokens: seq<Token>, minimum: nat, operator: BinaryOperator)
    requires OperatorOf(token) == Some(operator) && minimum <= Precedence(operator)
    ensures var right := Expression(tokens, 0, Precedence(operator) + 1);
      ExpressionTail(left, [token] + tokens, 0, minimum)
        == if right.Err? then right
           else ExpressionTail(Binary(operator, left, right.value), right.rest, 0, minimum)
  {
    hide Expression, ExpressionTail;
    TailUnfolds(left, [token] + tokens, 0, minimum);
    assert ([token] + tokens)[1..] == tokens;
  }

  lemma LooserStops(left: Node, token: Token, tokens: seq<Token>, minimum: nat, operator: BinaryOperator)
    requires OperatorOf(token) == Some(operator) && Precedence(operator) < minimum
    ensures ExpressionTail(left, [token] + tokens, 0, minimum) == Ok(left, [token] + tokens)
  {
    hide Expression, ExpressionTail;
    TailUnfolds(left, [token] + tokens, 0, minimum);
  }
}
