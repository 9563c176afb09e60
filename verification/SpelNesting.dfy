/**
 The nesting limit of the parser (crates/spel/src/parser.rs) is one on the text, not on the tree: it counts the
 brackets and the prefix operators that are pending, also the parentheses that make no difference to what is
 evaluated. Printing needs the fewest of them.
 */
module SpelNesting {
  import opened SpelSyntax
  import opened SpelGrammar
  import opened SpelTokens
  import opened SpelPrinter
  import opened SpelRoundTrip
  import opened SpelNormalForm
  import opened SpelFrontEnd
  import opened SpelTokenNesting

  /** Tokens that denote a tree, whatever the limit, nest at least as deep as the tree as it is printed, and that
      is the number of frames of the tree. */
  lemma PrintedNesting(node: Node)
    requires WellFormed(node)
    ensures Unlimited(Print(node)) == Ok(node, []) && Nesting(Print(node)) == Frames(node, 0)
    ensures forall tokens | ValidTokens(tokens) && Unlimited(tokens) == Ok(node, []) ::
              Frames(node, 0) <= Nesting(tokens)
  {
    hide Expression, PrintTo, Frames, WellFormed, Nesting;
    var depth := MAX_NESTING - Frames(node, 0);
    ValidPrint(node, 0, []);
    NothingFollows();
    ParsesExpression(node, 0, [], depth);
    LimitedExactly(Print(node), depth);
    forall tokens | ValidTokens(tokens) && Unlimited(tokens) == Ok(node, [])
      ensures Frames(node, 0) <= Nesting(tokens)
    {
      hide Consumed;
      LimitedExactly(tokens, MAX_NESTING - Nesting(tokens));
      SoundExpression(tokens, MAX_NESTING - Nesting(tokens), 0);
    }
  }

  /** A number in so many parentheses. */
  function InParentheses(count: nat, rest: seq<Token>): seq<Token> {
    if count == 0 then [IntLiteral(1)] + rest
    else [Symbol(OpenParen)] + InParentheses(count - 1, [Symbol(CloseParen)] + rest)
  }

  /** It is accepted exactly with fewer than 64 of them, and is then the number alone. */
  lemma ParenthesesCount(count: nat)
    ensures Parse(InParentheses(count, [])) == if count < 64 then Ok(Int(1), []) else Err(Syntax)
  {
    hide Expression;
    ParenthesesFrom(count, [], 0);
  }

  lemma {:induction false} ParenthesesFrom(count: nat, rest: seq<Token>, depth: nat)
    requires rest == [] || rest[0] == Symbol(CloseParen)
    ensures Expression(InParentheses(count, rest), depth, 0)
         == if depth + count < MAX_NESTING then Ok(Int(1), rest) else Err(Syntax)
    decreases count
  {
    hide Expression, ExpressionTail, PostfixTail, Postfix, UnaryExpression;
    var tokens := InParentheses(count, rest);
    ThenNothing(tokens, rest, depth);
    if depth < MAX_NESTING {
      OperandIsPostfix(tokens, depth);
      PostfixStops(Int(1), rest, depth + 1);
      if count > 0 {
        var inner := InParentheses(count - 1, [Symbol(CloseParen)] + rest);
        ParenthesesFrom(count - 1, [Symbol(CloseParen)] + rest, depth + 1);
        if depth + count < MAX_NESTING {
          GroupStep(inner, Int(1), rest, depth + 1);
        } else {
          GroupFails(inner, depth + 1);
        }
      } else {
        NumberStep(rest, depth + 1);
      }
    }
  }

  lemma ThenNothing(tokens: seq<Token>, rest: seq<Token>, depth: nat)
    requires rest == [] || rest[0] == Symbol(CloseParen)
    ensures depth >= MAX_NESTING ==> Expression(tokens, depth, 0) == Err(Syntax)
    ensures UnaryExpression(tokens, depth) == Ok(Int(1), rest) ==> Expression(tokens, depth, 0) == Ok(Int(1), rest)
    ensures UnaryExpression(tokens, depth) == Err(Syntax) ==> Expression(tokens, depth, 0) == Err(Syntax)
  {
    hide UnaryOperand, ExpressionTail;
    ExpressionStops(Int(1), rest, depth, 0);
  }

  lemma GroupFails(tokens: seq<Token>, depth: nat)
    requires Expression(tokens, depth, 0) == Err(Syntax)
    ensures Postfix([Symbol(OpenParen)] + tokens, depth) == Err(Syntax)
  {
    hide Expression, PostfixTail;
    assert ([Symbol(OpenParen)] + tokens)[1..] == tokens;
    assert Primary([Symbol(OpenParen)] + tokens, depth) == Err(Syntax);
  }

  lemma NumberStep(rest: seq<Token>, depth: nat)
    ensures Postfix([IntLiteral(1)] + rest, depth) == PostfixTail(Int(1), rest, depth)
  {
    hide Expression, PostfixTail;
    assert ([IntLiteral(1)] + rest)[1..] == rest;
    assert Primary([IntLiteral(1)] + rest, depth) == Ok(Int(1), rest);
  }
}
