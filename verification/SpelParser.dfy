/**
 The recursive descent parser (crates/spel/src/parser.rs): an object with a position in the tokens and
 a nesting counter. Each method is proved to consume and build what SpelGrammar says, to restore the
 counter whether it succeeds or fails, and to terminate although it rewinds.
 */
module SpelParser {
  import opened Wrappers
  import opened SpelSyntax
  import opened SpelGrammar
  import opened SpelCost
  import SpelLexer
  import SpelFrontEnd

  datatype Result<+T> = Success(value: T) | Failure(kind: ErrorKind)

  class Parser {
    const tokens: seq<Token>
    var position: nat
    var depth: nat
    /** The calls that have not returned, and the most there have been. */
    ghost var active: Cost
    ghost var most: Cost

    /** The counter never exceeds the limit: it counts the active `ParseUnary` frames. */
    ghost predicate Valid()
      reads this
    {
      position <= |tokens| && depth <= MAX_NESTING && IsBelow(active, most)
    }

    ghost function Left(): seq<Token>
      reads this
      requires Valid()
    {
      tokens[position..]
    }

    /** The result, and on success the tokens left, are what the grammar says. */
    ghost predicate Agrees<T>(expected: Parsed<T>, r: Result<T>)
      reads this
      requires Valid()
    {
      match expected
      case Ok(value, rest) => r == Success(value) && Left() == rest
      case Err(kind) => r == Failure(kind)
    }

    constructor (tokens: seq<Token>)
      ensures Valid() && this.tokens == tokens && position == 0 && depth == 0 && active == most == FREE
    {
      this.tokens := tokens;
      position, depth := 0, 0;
      active, most := FREE, FREE;
    }

    method EatSymbol(symbol: Punctuation) returns (eaten: bool)
      requires Valid()
      modifies this`position
      ensures Valid() && eaten == Starts(old(Left()), symbol)
      ensures position == old(position) + if eaten then 1 else 0
      ensures Left() == if eaten then old(Left())[1..] else old(Left())
    {
      eaten := false;
      if position < |tokens| && tokens[position] == Symbol(symbol) {
        position := position + 1;
        eaten := true;
      }
    }

    method ExpectSymbol(symbol: Punctuation) returns (r: Result<()>)
      requires Valid()
      modifies this`position
      ensures Valid() && Agrees(Expect(old(Left()), symbol), r)
      ensures position == old(position) + if r.Success? then 1 else 0
    {
      if position < |tokens| && tokens[position] == Symbol(symbol) {
        position := position + 1;
        r := Success(());
      } else {
        r := Failure(Syntax);
      }
    }

    method Next() returns (token: Option<Token>)
      requires Valid()
      modifies this`position
      ensures Valid() && position == old(position) + if token.Some? then 1 else 0
      ensures token == if old(Left()) == [] then None else Some(old(Left())[0])
      ensures Left() == if token.Some? then old(Left())[1..] else old(Left())
    {
      token := None;
      if position < |tokens| {
        token := Some(tokens[position]);
        position := position + 1;
      }
    }

    method PeekBinaryOperator() returns (operator: Option<BinaryOperator>)
      requires Valid()
      ensures operator == PeekOperator(Left())
    {
      operator := if position < |tokens| then OperatorOf(tokens[position]) else None;
    }

    method ParseExpression(minimum: nat) returns (r: Result<Node>)
      requires Valid()
      modifies this
      decreases |tokens| - position, 5
      ensures Valid() && depth == old(depth) && active == old(active)
      ensures r.Success? ==> position > old(position)
      ensures Agrees(Expression(old(Left()), depth, minimum), r)
      ensures Ran(old(most), most, active, OfExpression(old(Left()), depth, minimum))
    {
      hide Expression, ExpressionTail, UnaryExpression, ExpressionRound, Grows, OfExpression, OfTail, OfUnary,
        OfRound, Ran;
      ghost var start := Left();
      ExpressionUnfolds(start, depth, minimum);
      active := InCall(active);
      most := Both(most, active);
      ghost var entered, spent := most, OfUnary(start, depth);
      r := ParseUnary();
      if r.Failure? {
        BothLaws(spent, FREE, FREE);
        RanIn(old(most), most, old(active), spent);
        active := old(active);
        return;
      }
      var left := r.value;
      while true
        invariant Valid() && depth == old(depth) && position > old(position) && active == InCall(old(active))
        invariant Expression(start, depth, minimum) == ExpressionTail(left, Left(), depth, minimum)
        invariant OfExpression(start, depth, minimum) == InCall(Both(spent, OfTail(left, Left(), depth, minimum)))
        invariant Ran(entered, most, active, spent)
        decreases |tokens| - position
      {
        ghost var before, cost := most, if Grows(Left(), minimum) then OfRound(Left(), depth, minimum) else FREE;
        ExpressionTailUnfolds(left, Left(), depth, minimum);
        var grows, larger := ParseRound(left, minimum);
        RanBoth(entered, before, most, active, spent, cost);
        BothLaws(spent, cost, if grows && larger.Success? then OfTail(larger.value, Left(), depth, minimum) else FREE);
        spent := Both(spent, cost);
        if !grows {
          break;
        }
        if larger.Failure? {
          BothLaws(spent, FREE, FREE);
          RanIn(old(most), most, old(active), spent);
          active := old(active);
          return larger;
        }
        left := larger.value;
      }
      BothLaws(spent, FREE, FREE);
      RanIn(old(most), most, old(active), spent);
      active := old(active);
      r := Success(left);
    }

    /** One round of the loop of `ParseExpression`: a larger expression, unless nothing more belongs to it. */
    method ParseRound(left: Node, minimum: nat) returns (grows: bool, r: Result<Node>)
      requires Valid()
      modifies this
      decreases |tokens| - position, 6
      ensures Valid() && depth == old(depth) && active == old(active)
      ensures grows == Grows(old(Left()), minimum)
      ensures if grows then Agrees(ExpressionRound(left, old(Left()), depth, minimum), r)
              else r == Success(left) && position == old(position)
      ensures grows && r.Success? ==> position > old(position)
      ensures Ran(old(most), most, active, if grows then OfRound(old(Left()), depth, minimum) else FREE)
    {
      hide Operation, Choice, Fallback, OperatorOf, Precedence, OfExpression, OfBranches, Ran;
      ghost var before := Left();
      if minimum == 0 {
        var fallback := EatSymbol(Question2);
        if fallback {
          var elvis := ParseFallback(left);
          return true, elvis;
        }
        var ternary := EatSymbol(Question);
        if ternary {
          var choice := ParseChoice(left);
          return true, choice;
        }
      }
      var operator := PeekBinaryOperator();
      if operator.None? || Precedence(operator.value) < Floor(minimum) {
        RanNothing(most, active);
        return false, Success(left);
      }
      position := position + 1;
      assert Left() == before[1..];
      r := ParseOperation(left, operator.value, minimum);
      grows := true;
    }

    static ghost function Continue(left: Parsed<Node>, depth: nat, minimum: nat): Parsed<Node> {
      if left.Err? then left else ExpressionTail(left.value, left.rest, depth, minimum)
    }

    static lemma ExpressionUnfolds(tokens: seq<Token>, depth: nat, minimum: nat)
      ensures Expression(tokens, depth, minimum) == Continue(UnaryExpression(tokens, depth), depth, minimum)
      ensures OfExpression(tokens, depth, minimum)
           == InCall(Both(OfUnary(tokens, depth), OfContinue(UnaryExpression(tokens, depth), depth, minimum)))
    {
      hide ExpressionTail, OfTail;
    }

    static ghost function OfContinue(left: Parsed<Node>, depth: nat, minimum: nat): Cost {
      if left.Err? then FREE else OfTail(left.value, left.rest, depth, minimum)
    }

    static predicate Grows(tokens: seq<Token>, minimum: nat) {
      || (minimum == 0 && (Starts(tokens, Question2) || Starts(tokens, Question)))
      || (PeekOperator(tokens).Some? && Precedence(PeekOperator(tokens).value) >= Floor(minimum))
    }

    /** One round of the loop: the larger expression. */
    static ghost function ExpressionRound(left: Node, tokens: seq<Token>, depth: nat, minimum: nat): Parsed<Node>
      requires Grows(tokens, minimum)
    {
      if minimum == 0 && Starts(tokens, Question2) then
        Fallback(left, tokens[1..], depth)
      else if minimum == 0 && Starts(tokens, Question) then
        Choice(left, tokens[1..], depth)
      else
        Operation(left, PeekOperator(tokens).value, tokens[1..], depth)
    }

    static ghost function OfRound(tokens: seq<Token>, depth: nat, minimum: nat): Cost
      requires Grows(tokens, minimum)
    {
      if minimum == 0 && Starts(tokens, Question2) then InChoice(OfExpression(tokens[1..], depth, 0))
      else if minimum == 0 && Starts(tokens, Question) then OfBranches(tokens[1..], depth)
      else OfExpression(tokens[1..], depth, Precedence(PeekOperator(tokens).value) + 1)
    }

    /** The right operand, after the operator. */
    static ghost function Operation(left: Node, operator: BinaryOperator, tokens: seq<Token>,
      depth: nat): Parsed<Node> {
      var right := Expression(tokens, depth, Precedence(operator) + 1);
      if right.Err? then right else Ok(Binary(operator, left, right.value), right.rest)
    }

    method ParseOperation(left: Node, operator: BinaryOperator, minimum: nat) returns (r: Result<Node>)
      requires Valid()
      requires Floor(minimum) <= Precedence(operator)
      modifies this
      decreases |tokens| - position, 6
      ensures Valid() && depth == old(depth) && active == old(active)
      ensures r.Success? ==> position > old(position)
      ensures Agrees(Operation(left, operator, old(Left()), depth), r)
      ensures Ran(old(most), most, active, OfExpression(old(Left()), depth, Precedence(operator) + 1))
    {
      hide Expression, OfExpression, Ran;
      var right := ParseExpression(Precedence(operator) + 1);
      if right.Failure? {
        return right;
      }
      r := Success(Binary(operator, left, right.value));
    }

    /** The fallback of an elvis operator, after the symbol. */
    static ghost function Fallback(value: Node, tokens: seq<Token>, depth: nat): Parsed<Node> {
      var fallback := Expression(tokens, depth, 0);
      if fallback.Err? then fallback else Ok(Elvis(value, fallback.value), fallback.rest)
    }

    /** A fallback or a branch. */
    method ParseBranch() returns (r: Result<Node>)
      requires Valid()
      modifies this
      decreases |tokens| - position, 6
      ensures Valid() && depth == old(depth) && active == old(active)
      ensures r.Success? ==> position > old(position)
      ensures Agrees(Expression(old(Left()), depth, 0), r)
      ensures Ran(old(most), most, active, InChoice(OfExpression(old(Left()), depth, 0)))
    {
      hide Expression, OfExpression, Ran;
      ghost var start := Left();
      active := InChoice(active);
      most := Both(most, active);
      r := ParseExpression(0);
      RanIn(old(most), most, old(active), OfExpression(start, depth, 0));
      active := old(active);
    }

    method ParseFallback(value: Node) returns (r: Result<Node>)
      requires Valid()
      modifies this
      decreases |tokens| - position, 7
      ensures Valid() && depth == old(depth) && active == old(active)
      ensures r.Success? ==> position > old(position)
      ensures Agrees(Fallback(value, old(Left()), depth), r)
      ensures Ran(old(most), most, active, InChoice(OfExpression(old(Left()), depth, 0)))
    {
      hide Expression, OfExpression, Ran;
      var fallback := ParseBranch();
      if fallback.Failure? {
        return fallback;
      }
      r := Success(Elvis(value, fallback.value));
    }

    /** The two branches of a ternary, after the question mark. */
    static ghost function Choice(condition: Node, tokens: seq<Token>, depth: nat): Parsed<Node> {
      var then_ := Expression(tokens, depth, 0);
      if then_.Err? then then_ else
      if !Starts(then_.rest, Colon) then Err(Syntax) else
      var otherwise := Expression(then_.rest[1..], depth, 0);
      if otherwise.Err? then otherwise else Ok(Ternary(condition, then_.value, otherwise.value), otherwise.rest)
    }

    method ParseChoice(condition: Node) returns (r: Result<Node>)
      requires Valid()
      modifies this
      decreases |tokens| - position, 7
      ensures Valid() && depth == old(depth) && active == old(active)
      ensures r.Success? ==> position > old(position)
      ensures Agrees(Choice(condition, old(Left()), depth), r)
      ensures Ran(old(most), most, active, OfBranches(old(Left()), depth))
    {
      hide Expression, OfExpression, Ran;
      ghost var first := InChoice(OfExpression(Left(), depth, 0));
      BothLaws(first, FREE, FREE);
      var then_ := ParseBranch();
      if then_.Failure? {
        return then_;
      }
      var colon := ExpectSymbol(Colon);
      if colon.Failure? {
        return Failure(colon.kind);
      }
      ghost var between, second := most, InChoice(OfExpression(Left(), depth, 0));
      var otherwise := ParseBranch();
      RanBoth(old(most), between, most, active, first, second);
      if otherwise.Failure? {
        return otherwise;
      }
      r := Success(Ternary(condition, then_.value, otherwise.value));
    }

    static lemma ExpressionTailUnfolds(left: Node, tokens: seq<Token>, depth: nat, minimum: nat)
      ensures ExpressionTail(left, tokens, depth, minimum)
           == if Grows(tokens, minimum) then Continue(ExpressionRound(left, tokens, depth, minimum), depth, minimum)
              else Ok(left, tokens)
      ensures OfTail(left, tokens, depth, minimum)
           == if Grows(tokens, minimum) then
                Both(OfRound(tokens, depth, minimum),
                  OfContinue(ExpressionRound(left, tokens, depth, minimum), depth, minimum))
              else FREE
    {
      hide Expression, ExpressionTail, OfExpression, OfTail, OfOtherwise;
      TailUnfolds(left, tokens, depth, minimum);
      TailCosts(left, tokens, depth, minimum);
      if Grows(tokens, minimum) && minimum == 0 && Starts(tokens, Question) {
        BranchesCost(left, tokens[1..], depth);
      }
    }

    static lemma BranchesCost(left: Node, tokens: seq<Token>, depth: nat)
      ensures Both(InChoice(OfExpression(tokens, depth, 0)), AfterQuestion(left, tokens, depth))
           == Both(OfBranches(tokens, depth), OfContinue(Choice(left, tokens, depth), depth, 0))
    {
      hide Expression, OfExpression, OfTail, Both;
      var first, then_ := InChoice(OfExpression(tokens, depth, 0)), Expression(tokens, depth, 0);
      if then_.Ok? && Starts(then_.rest, Colon) {
        var second := InChoice(OfExpression(then_.rest[1..], depth, 0));
        BothLaws(first, second, OfContinue(Choice(left, tokens, depth), depth, 0));
      } else {
        BothLaws(first, FREE, FREE);
      }
    }

    method ParseUnary() returns (r: Result<Node>)
      requires Valid()
      modifies this
      decreases |tokens| - position, 4
      ensures Valid() && depth == old(depth) && active == old(active)
      ensures r.Success? ==> position > old(position)
      ensures Agrees(UnaryExpression(old(Left()), depth), r)
      ensures Ran(old(most), most, active, OfUnary(old(Left()), depth))
    {
      hide UnaryOperand, OfOperand, Ran;
      ghost var start := Left();
      active := InFrame(active);
      most := Both(most, active);
      if depth >= MAX_NESTING {
        RanNothing(most, active);
        RanIn(old(most), most, old(active), FREE);
        active := old(active);
        return Failure(Syntax);
      }
      depth := depth + 1;
      r := ParseUnaryOperand();
      depth := depth - 1;
      RanIn(old(most), most, old(active), OfOperand(start, depth + 1));
      active := old(active);
    }

    method ParseUnaryOperand() returns (r: Result<Node>)
      requires Valid()
      modifies this
      decreases |tokens| - position, 3
      ensures Valid() && depth == old(depth) && active == old(active)
      ensures r.Success? ==> position > old(position)
      ensures Agrees(UnaryOperand(old(Left()), depth), r)
      ensures Ran(old(most), most, active, OfOperand(old(Left()), depth))
    {
      hide UnaryExpression, Postfix, OfUnary, OfPostfix, Ran;
      ghost var start := Left();
      var not := EatSymbol(Bang);
      if not {
        var operand := ParseUnary();
        return if operand.Failure? then operand else Success(Unary(Not, operand.value));
      }
      var minus := EatSymbol(Minus);
      if minus {
        var operand := ParseUnary();
        return if operand.Failure? then operand else Success(Unary(Negate, operand.value));
      }
      if position < |tokens| && tokens[position] == Identifier("not") {
        position := position + 1;
        assert Left() == start[1..];
        var operand := ParseUnary();
        return if operand.Failure? then operand else Success(Unary(Not, operand.value));
      }
      r := ParsePostfix();
    }

    method ParsePostfix() returns (r: Result<Node>)
      requires Valid()
      modifies this
      decreases |tokens| - position, 2
      ensures Valid() && depth == old(depth) && active == old(active)
      ensures r.Success? ==> position > old(position)
      ensures Agrees(Postfix(old(Left()), depth), r)
      ensures Ran(old(most), most, active, OfPostfix(old(Left()), depth))
    {
      hide Primary, Postfix, PostfixTail, PostfixRound, Extends, OfPostfix, OfPrimary, OfSuffixes, OfSuffixRound, Ran;
      ghost var start := Left();
      PostfixUnfolds(start, depth);
      ghost var spent := OfPrimary(start, depth);
      BothLaws(spent, FREE, FREE);
      r := ParsePrimary();
      if r.Failure? {
        return;
      }
      var node := r.value;
      while true
        invariant Valid() && depth == old(depth) && position > old(position) && active == old(active)
        invariant Postfix(start, depth) == PostfixTail(node, Left(), depth)
        invariant OfPostfix(start, depth) == Both(spent, OfSuffixes(node, Left(), depth))
        invariant Ran(old(most), most, active, spent)
        decreases |tokens| - position
      {
        ghost var before, cost := most, if Extends(Left()) then OfSuffixRound(Left(), depth) else FREE;
        PostfixTailUnfolds(node, Left(), depth);
        var extends_, larger := ParsePostfixRound(node);
        RanBoth(old(most), before, most, active, spent, cost);
        BothLaws(spent, cost, if extends_ && larger.Success? then OfSuffixes(larger.value, Left(), depth) else FREE);
        spent := Both(spent, cost);
        BothLaws(spent, FREE, FREE);
        if !extends_ {
          break;
        }
        if larger.Failure? {
          return larger;
        }
        node := larger.value;
      }
      r := Success(node);
    }

    /** One round of the loop of `ParsePostfix`. */
    method ParsePostfixRound(node: Node) returns (extends_: bool, r: Result<Node>)
      requires Valid()
      modifies this
      decreases |tokens| - position, 9
      ensures Valid() && depth == old(depth) && active == old(active)
      ensures extends_ == Extends(old(Left()))
      ensures if extends_ then Agrees(PostfixRound(node, old(Left()), depth), r)
              else r == Success(node) && position == old(position)
      ensures extends_ && r.Success? ==> position > old(position)
      ensures Ran(old(most), most, active, if extends_ then OfSuffixRound(old(Left()), depth) else FREE)
    {
      hide Suffix, Member, OfExpression, OfMember, Ran;
      RanNothing(most, active);
      extends_ := true;
      var projection := EatSymbol(BangBracket);
      if projection {
        r := ParseBracketed(node, BangBracket);
        return;
      }
      var selection := EatSymbol(QuestionBracket);
      if selection {
        r := ParseBracketed(node, QuestionBracket);
        return;
      }
      var safe := EatSymbol(SafeDot);
      if !safe {
        var dot := EatSymbol(Dot);
        if !dot {
          var index := EatSymbol(OpenBracket);
          if index {
            r := ParseBracketed(node, OpenBracket);
            return;
          }
          return false, Success(node);
        }
      }
      r := ParseMember(node, safe);
    }

    static lemma PostfixUnfolds(tokens: seq<Token>, depth: nat)
      ensures Postfix(tokens, depth) == ContinuePostfix(Primary(tokens, depth), depth)
      ensures OfPostfix(tokens, depth)
          == Both(OfPrimary(tokens, depth), OfContinuePostfix(Primary(tokens, depth), depth))
    {
      hide Primary, PostfixTail, OfPrimary, OfSuffixes;
    }

    static ghost function OfContinuePostfix(node: Parsed<Node>, depth: nat): Cost {
      if node.Err? then FREE else OfSuffixes(node.value, node.rest, depth)
    }

    static ghost function ContinuePostfix(node: Parsed<Node>, depth: nat): Parsed<Node> {
      if node.Err? then node else PostfixTail(node.value, node.rest, depth)
    }

    /** One round of the loop: the next node, or the end. */
    static ghost function PostfixRound(node: Node, tokens: seq<Token>, depth: nat): Parsed<Node>
      requires tokens != []
    {
      var after := tokens[1..];
      if Starts(tokens, BangBracket) then Suffix(node, BangBracket, after, depth)
      else if Starts(tokens, QuestionBracket) then Suffix(node, QuestionBracket, after, depth)
      else if Starts(tokens, OpenBracket) then Suffix(node, OpenBracket, after, depth)
      else Member(node, Starts(tokens, SafeDot), after, depth)
    }

    static ghost function OfSuffixRound(tokens: seq<Token>, depth: nat): Cost {
      if Starts(tokens, SafeDot) || Starts(tokens, Dot) then OfMember(tokens[1..], depth)
      else if Extends(tokens) then OfExpression(tokens[1..], depth, 0) else FREE
    }

    static predicate Extends(tokens: seq<Token>) {
      Starts(tokens, BangBracket) || Starts(tokens, QuestionBracket) || Starts(tokens, OpenBracket) ||
      Starts(tokens, SafeDot) || Starts(tokens, Dot)
    }

    static lemma PostfixTailUnfolds(node: Node, tokens: seq<Token>, depth: nat)
      ensures PostfixTail(node, tokens, depth)
           == if Extends(tokens) then ContinuePostfix(PostfixRound(node, tokens, depth), depth) else Ok(node, tokens)
      ensures OfSuffixes(node, tokens, depth)
           == if Extends(tokens) then
                Both(OfSuffixRound(tokens, depth), OfContinuePostfix(PostfixRound(node, tokens, depth), depth))
              else FREE
    {
      hide Arguments, Bracketed, Member, PostfixTail, OfExpression, OfMember, OfSuffixes;
      if Starts(tokens, SafeDot) || Starts(tokens, Dot) {
        MemberContinues(node, tokens, depth);
      } else if Extends(tokens) {
        BracketUnfolds(node, tokens, depth);
        BracketCosts(node, tokens, depth);
      } else {
        NoSuffixes(node, tokens, depth);
      }
    }

    static lemma MemberContinues(node: Node, tokens: seq<Token>, depth: nat)
      requires Starts(tokens, SafeDot) || Starts(tokens, Dot)
      ensures var member := Member(node, Starts(tokens, SafeDot), tokens[1..], depth);
        && PostfixTail(node, tokens, depth) == ContinuePostfix(member, depth)
        && OfSuffixes(node, tokens, depth) == Both(OfMember(tokens[1..], depth), OfContinuePostfix(member, depth))
    {
      hide Arguments, PostfixTail, OfArguments, OfSuffixes;
      MemberUnfolds(node, tokens, depth);
      MemberCosts(node, tokens, depth);
      BothLaws(OfSuffixes(node, tokens, depth), FREE, FREE);
      if |tokens| >= 2 {
        assert tokens[1..][1..] == tokens[2..] && tokens[1..][0] == tokens[1];
        if |tokens| >= 3 {
          assert tokens[1..][2..] == tokens[3..];
        }
      }
    }

    static ghost function OfMember(tokens: seq<Token>, depth: nat): Cost {
      if tokens != [] && tokens[0].Identifier? && Starts(tokens[1..], OpenParen) then OfArguments(tokens[2..], depth)
      else FREE
    }

    /** What a dot makes of the tokens after it: a property or a call. */
    static ghost function Member(node: Node, safe: bool, tokens: seq<Token>, depth: nat): Parsed<Node> {
      if tokens == [] || !tokens[0].Identifier? then Err(Syntax)
      else if Starts(tokens[1..], OpenParen) then
        var arguments := Arguments(tokens[2..], depth);
        if arguments.Err? then Err(arguments.kind)
        else Ok(Call(Some(node), tokens[0].name, arguments.value, safe), arguments.rest)
      else Ok(Property(node, tokens[0].name, safe), tokens[1..])
    }

    method ParseMember(node: Node, safe: bool) returns (r: Result<Node>)
      requires Valid()
      modifies this
      decreases |tokens| - position, 8
      ensures Valid() && depth == old(depth) && active == old(active)
      ensures r.Success? ==> position > old(position)
      ensures Agrees(Member(node, safe, old(Left()), depth), r)
      ensures Ran(old(most), most, active, OfMember(old(Left()), depth))
    {
      hide Arguments, OfArguments, Ran;
      RanNothing(most, active);
      ghost var start := Left();
      var name := Next();
      if name.None? || !name.value.Identifier? {
        return Failure(Syntax);
      }
      var call := EatSymbol(OpenParen);
      if call {
        assert Left() == start[2..];
        var arguments := ParseArguments();
        if arguments.Failure? {
          return Failure(arguments.kind);
        }
        return Success(Call(Some(node), name.value.name, arguments.value, safe));
      }
      r := Success(Property(node, name.value.name, safe));
    }

    static ghost function Suffix(node: Node, open: Punctuation, tokens: seq<Token>, depth: nat): Parsed<Node> {
      var body := Bracketed(tokens, depth);
      if body.Err? then body else Ok(WithBody(node, open, body.value), body.rest)
    }

    /** What follows an opening bracket: an expression and the closing bracket. */
    method ParseBracketed(node: Node, open: Punctuation) returns (r: Result<Node>)
      requires Valid()
      modifies this
      decreases |tokens| - position, 6
      ensures Valid() && depth == old(depth) && active == old(active)
      ensures r.Success? ==> position > old(position)
      ensures Agrees(Suffix(node, open, old(Left()), depth), r)
      ensures Ran(old(most), most, active, OfExpression(old(Left()), depth, 0))
    {
      hide Expression, OfExpression, Ran;
      r := ParseExpression(0);
      if r.Failure? {
        return;
      }
      var closing := ExpectSymbol(CloseBracket);
      if closing.Failure? {
        return Failure(closing.kind);
      }
      r := Success(WithBody(node, open, r.value));
    }

    method ParseArguments() returns (r: Result<seq<Node>>)
      requires Valid()
      modifies this
      decreases |tokens| - position, 7
      ensures Valid() && depth == old(depth) && active == old(active)
      ensures r.Success? ==> position > old(position)
      ensures Agrees(Arguments(old(Left()), depth), r)
      ensures Ran(old(most), most, active, OfArguments(old(Left()), depth))
    {
      hide Items, OfItems, Ran;
      RanNothing(most, active);
      var none := EatSymbol(CloseParen);
      if none {
        return Success([]);
      }
      r := ParseItems(CloseParen);
    }

    /** The item list of which `items` have been read. */
    static ghost function Listed(items: seq<Node>, left: Parsed<seq<Node>>): Parsed<seq<Node>> {
      match left
      case Err(kind) => Err(kind)
      case Ok(others, rest) => Ok(items + others, rest)
    }

    static ghost function ListedAfter(items: seq<Node>, first: Parsed<Node>, depth: nat,
      close: Punctuation): Parsed<seq<Node>> {
      if first.Err? then Err(first.kind)
      else if Starts(first.rest, Comma) then Listed(items + [first.value], Items(first.rest[1..], depth, close))
      else if Starts(first.rest, close) then Ok(items + [first.value], first.rest[1..])
      else Err(Syntax)
    }

    static lemma ListedStep(items: seq<Node>, tokens: seq<Token>, depth: nat, close: Punctuation)
      ensures Listed(items, Items(tokens, depth, close))
          == ListedAfter(items, Expression(tokens, depth, 0), depth, close)
    {
      hide Expression;
      var first := Expression(tokens, depth, 0);
      if first.Ok? && Starts(first.rest, Comma) {
        var others := Items(first.rest[1..], depth, close);
        if others.Ok? {
          assert items + ([first.value] + others.value) == (items + [first.value]) + others.value;
        }
      }
    }

    method ParseItems(close: Punctuation) returns (r: Result<seq<Node>>)
      requires Valid() && close != Comma
      modifies this
      decreases |tokens| - position, 6
      ensures Valid() && depth == old(depth) && active == old(active)
      ensures r.Success? ==> position > old(position)
      ensures Agrees(Items(old(Left()), depth, close), r)
      ensures Ran(old(most), most, active, OfItems(old(Left()), depth))
    {
      hide Items, Expression, Listed, OfItems, OfExpression, Ran, Both;
      ghost var start, spent := Left(), FREE;
      var items: seq<Node> := [];
      ListedNothing(Items(start, depth, close));
      RanNothing(most, active);
      BothLaws(OfItems(start, depth), FREE, FREE);
      while true
        invariant Valid() && depth == old(depth) && position >= old(position) && active == old(active)
        invariant Items(start, depth, close) == Listed(items, Items(Left(), depth, close))
        invariant OfItems(start, depth) == Both(spent, OfItems(Left(), depth)) && Ran(old(most), most, active, spent)
        decreases |tokens| - position
      {
        ghost var before, cost := most, OfExpression(Left(), depth, 0);
        ListedStep(items, Left(), depth, close);
        ItemsCost(Left(), depth);
        var item := ParseExpression(0);
        RanBoth(old(most), before, most, active, spent, cost);
        BothLaws(spent, cost, if item.Success? && Starts(Left(), Comma) then OfItems(Left()[1..], depth) else FREE);
        spent := Both(spent, cost);
        BothLaws(spent, FREE, FREE);
        if item.Failure? {
          return Failure(item.kind);
        }
        items := items + [item.value];
        var more := EatSymbol(Comma);
        if more {
          continue;
        }
        var closing := ExpectSymbol(close);
        return if closing.Failure? then Failure(Syntax) else Success(items);
      }
    }

    static lemma ListedNothing(left: Parsed<seq<Node>>)
      ensures Listed([], left) == left
    {
      if left.Ok? {
        assert [] + left.value == left.value;
      }
    }

    method ParsePrimary() returns (r: Result<Node>)
      requires Valid()
      modifies this
      decreases |tokens| - position, 1
      ensures Valid() && depth == old(depth) && active == old(active)
      ensures r.Success? ==> position > old(position)
      ensures Agrees(Primary(old(Left()), depth), r)
      ensures Ran(old(most), most, active, OfPrimary(old(Left()), depth))
    {
      hide Expression, InlineCollection, Arguments, TypeName, OfExpression, OfCollection, OfArguments, Ran;
      ghost var start := Left();
      RanNothing(most, active);
      var token := Next();
      if token.None? {
        return Failure(Syntax);
      }
      match token.value
      case IntLiteral(n) => return Success(Int(n));
      case FloatLiteral(digits) => return Success(Float(digits));
      case Text(text) => return Success(Str(text));
      case VariableName(name) => return Success(Variable(name));
      case BeanName(name) => return Success(Bean(name));
      case Symbol(OpenParen) =>
        r := ParseExpression(0);
        if r.Success? {
          var closing := ExpectSymbol(CloseParen);
          if closing.Failure? {
            r := Failure(closing.kind);
          }
        }
      case Symbol(OpenBrace) => r := ParseInlineCollection();
      case Symbol(_) => return Failure(Syntax);
      case Identifier(name) =>
        assert Primary(start, depth) == Named(name, Left(), depth);
        NamedCost(start, depth);
        r := ParseNamed(name);
    }

    static ghost function OfNamed(name: string, tokens: seq<Token>, depth: nat): Cost {
      if Starts(tokens, OpenParen) && name !in {"true", "false", "null", "new", "T"} then
        OfArguments(tokens[1..], depth)
      else FREE
    }

    static lemma NamedCost(tokens: seq<Token>, depth: nat)
      requires tokens != [] && tokens[0].Identifier?
      ensures OfPrimary(tokens, depth) == OfNamed(tokens[0].name, tokens[1..], depth)
    {
      hide OfArguments;
      if |tokens| >= 2 {
        assert tokens[1..][1..] == tokens[2..];
      }
    }

    /** The arm of `ParsePrimary` for a name. */
    method ParseNamed(name: string) returns (r: Result<Node>)
      requires Valid()
      modifies this
      decreases |tokens| - position, 8
      ensures Valid() && depth == old(depth) && active == old(active)
      ensures r.Success? ==> position >= old(position)
      ensures Agrees(Named(name, old(Left()), depth), r)
      ensures Ran(old(most), most, active, OfNamed(name, old(Left()), depth))
    {
      hide Arguments, TypeName, OfArguments, Ran;
      RanNothing(most, active);
      if name == "true" {
        return Success(Bool(true));
      } else if name == "false" {
        return Success(Bool(false));
      } else if name == "null" {
        return Success(Null);
      } else if name == "new" {
        return Failure(Unsupported);
      }
      var call := EatSymbol(OpenParen);
      if !call {
        return Success(Root(name));
      }
      if name == "T" {
        TypeUnfolds(name, old(Left()), depth);
        var typeName := ParseTypeName();
        if typeName.Failure? {
          return Failure(typeName.kind);
        }
        var closing := ExpectSymbol(CloseParen);
        return if closing.Failure? then Failure(closing.kind) else Success(Type(typeName.value));
      }
      var arguments := ParseArguments();
      r := if arguments.Failure? then Failure(arguments.kind) else Success(Call(None, name, arguments.value, false));
    }

    static lemma TypeUnfolds(name: string, tokens: seq<Token>, depth: nat)
      requires name == "T" && Starts(tokens, OpenParen)
      ensures var typeName := TypeName(tokens[1..]);
              Named(name, tokens, depth) ==
              if typeName.Err? then Err(typeName.kind)
              else if Starts(typeName.rest, CloseParen) then Ok(Type(typeName.value), typeName.rest[1..])
              else Err(Syntax)
    {
      hide TypeName;
    }

    /** The type name of which `name` has been read. */
    static ghost function Qualified(name: string, left: Parsed<string>): Parsed<string> {
      match left
      case Err(kind) => Err(kind)
      case Ok(others, rest) => Ok(name + others, rest)
    }

    static lemma RegroupName(a: string, b: string, c: string)
      ensures a + (b + "." + c) == (a + b + ".") + c
    {
    }

    static lemma QualifiedStep(name: string, tokens: seq<Token>)
      ensures Qualified(name, TypeName(tokens)) ==
              (if tokens == [] || !tokens[0].Identifier? then Err(Syntax)
               else if Starts(tokens[1..], Dot) then Qualified(name + tokens[0].name + ".", TypeName(tokens[2..]))
               else Ok(name + tokens[0].name, tokens[1..]))
    {
      if tokens != [] && tokens[0].Identifier? && Starts(tokens[1..], Dot) {
        var others := TypeName(tokens[2..]);
        if others.Ok? {
          RegroupName(name, tokens[0].name, others.value);
        }
      }
    }

    method ParseTypeName() returns (r: Result<string>)
      requires Valid()
      modifies this`position
      ensures Valid()
      ensures r.Success? ==> position > old(position)
      ensures Agrees(TypeName(old(Left())), r)
    {
      hide TypeName;
      ghost var start := Left();
      var name := "";
      QualifiedNothing(TypeName(start));
      while true
        invariant Valid() && position >= old(position)
        invariant TypeName(start) == Qualified(name, TypeName(Left()))
        decreases |tokens| - position
      {
        ghost var before := Left();
        QualifiedStep(name, before);
        var token := Next();
        if token.None? || !token.value.Identifier? {
          return Failure(Syntax);
        }
        name := name + token.value.name;
        var dot := EatSymbol(Dot);
        if dot {
          assert Left() == before[2..];
          name := name + ".";
          continue;
        }
        return Success(name);
      }
    }

    static lemma QualifiedNothing(left: Parsed<string>)
      ensures Qualified("", left) == left
    {
      if left.Ok? {
        assert "" + left.value == left.value;
      }
    }

    method ParseMapKey() returns (key: Option<string>)
      requires Valid()
      modifies this`position
      ensures Valid() && key == MapKey(old(Left()))
      ensures position == old(position) + if key.Some? then 1 else 0
      ensures Left() == if key.Some? then old(Left())[1..] else old(Left())
    {
      key := None;
      if position < |tokens| {
        match tokens[position]
        case Identifier(name) =>
          position := position + 1;
          key := Some(name);
        case Text(text) =>
          position := position + 1;
          key := Some(text);
        case _ =>
      }
    }

    method ParseInlineCollection() returns (r: Result<Node>)
      requires Valid()
      modifies this
      decreases |tokens| - position, 7
      ensures Valid() && depth == old(depth) && active == old(active)
      ensures r.Success? ==> position > old(position)
      ensures Agrees(InlineCollection(old(Left()), depth), r)
      ensures Ran(old(most), most, active, OfCollection(old(Left()), depth))
    {
      hide Items, Entries, Expression, InlineCollection, OfItems, OfEntries, Ran;
      RanNothing(most, active);
      CollectionUnfolds(Left(), depth);
      ghost var start := Left();
      var none := EatSymbol(CloseBrace);
      if none {
        return Success(ListLiteral([]));
      }
      // only a key and a colon make this a map; without them its first item is read from here again
      var checkpoint := position;
      var key := ParseMapKey();
      if key.Some? {
        var colon := EatSymbol(Colon);
        if colon {
          assert StartsEntry(start) && Left() == start[2..];
          var entries := ParseEntries(key.value, start);
          return if entries.Failure? then Failure(entries.kind) else Success(MapLiteral(entries.value));
        }
      }
      position := checkpoint;
      assert !StartsEntry(start) && Left() == start;
      var items := ParseItems(CloseBrace);
      r := if items.Failure? then Failure(items.kind) else Success(ListLiteral(items.value));
    }

    static lemma CollectionUnfolds(tokens: seq<Token>, depth: nat)
      ensures InlineCollection(tokens, depth) ==
        if Starts(tokens, CloseBrace) then Ok(ListLiteral([]), tokens[1..])
        else if StartsEntry(tokens) then
          var entries := Entries(tokens, depth);
          if entries.Err? then Err(entries.kind) else Ok(MapLiteral(entries.value), entries.rest)
        else
          var items := Items(tokens, depth, CloseBrace);
          if items.Err? then Err(items.kind) else Ok(ListLiteral(items.value), items.rest)
    {
      hide Items, Entries, Expression;
    }

    /** The entry list of which `entries` have been read. */
    static ghost function ListedEntries(entries: seq<Entry>, left: Parsed<seq<Entry>>): Parsed<seq<Entry>> {
      match left
      case Err(kind) => Err(kind)
      case Ok(others, rest) => Ok(entries + others, rest)
    }

    /** `key : value`. */
    static ghost function KeyValue(tokens: seq<Token>, depth: nat): Parsed<Entry> {
      if !StartsEntry(tokens) then Err(Syntax) else
      var value := Expression(tokens[2..], depth, 0);
      if value.Err? then Err(value.kind) else Ok(Entry(MapKey(tokens).value, value.value), value.rest)
    }

    static ghost function ListedEntriesAfter(entries: seq<Entry>, entry: Parsed<Entry>,
      depth: nat): Parsed<seq<Entry>> {
      if entry.Err? then Err(entry.kind)
      else if Starts(entry.rest, Comma) then ListedEntries(entries + [entry.value], Entries(entry.rest[1..], depth))
      else if Starts(entry.rest, CloseBrace) then Ok(entries + [entry.value], entry.rest[1..])
      else Err(Syntax)
    }

    static lemma ListedEntriesStep(entries: seq<Entry>, tokens: seq<Token>, depth: nat)
      ensures ListedEntries(entries, Entries(tokens, depth))
          == ListedEntriesAfter(entries, KeyValue(tokens, depth), depth)
    {
      hide Expression;
      var entry := KeyValue(tokens, depth);
      if entry.Ok? && Starts(entry.rest, Comma) {
        var others := Entries(entry.rest[1..], depth);
        if others.Ok? {
          RegroupEntries(entries, entry.value, others.value);
        }
      }
    }

    static lemma RegroupEntries(a: seq<Entry>, b: Entry, c: seq<Entry>)
      ensures a + ([b] + c) == (a + [b]) + c
    {
    }

    static lemma KeyValueUnfolds(tokens: seq<Token>, depth: nat)
      requires StartsEntry(tokens)
      ensures KeyValue(tokens, depth) ==
        var value := Expression(tokens[2..], depth, 0);
        if value.Err? then Err(value.kind) else Ok(Entry(MapKey(tokens).value, value.value), value.rest)
      ensures OfKeyValue(tokens, depth) == OfExpression(tokens[2..], depth, 0)
    {
      hide Expression, OfExpression;
    }

    static ghost function OfKeyValue(tokens: seq<Token>, depth: nat): Cost {
      if StartsEntry(tokens) then OfExpression(tokens[2..], depth, 0) else FREE
    }

    static lemma EntryCost(tokens: seq<Token>, depth: nat)
      ensures var entry := KeyValue(tokens, depth);
        OfEntries(tokens, depth)
          == Both(OfKeyValue(tokens, depth),
                  if entry.Ok? && Starts(entry.rest, Comma) then OfEntries(entry.rest[1..], depth) else FREE)
    {
      hide Expression, OfExpression, OfEntries;
      EntriesCost(tokens, depth);
    }

    method ParseKeyValue() returns (r: Result<Entry>)
      requires Valid()
      modifies this
      decreases |tokens| - position, 6
      ensures Valid() && depth == old(depth) && active == old(active)
      ensures r.Success? ==> position > old(position)
      ensures Agrees(KeyValue(old(Left()), depth), r)
      ensures Ran(old(most), most, active, OfKeyValue(old(Left()), depth))
    {
      hide Expression, OfExpression, Ran;
      RanNothing(most, active);
      ghost var start := Left();
      var key := ParseMapKey();
      if key.None? {
        return Failure(Syntax);
      }
      var colon := ExpectSymbol(Colon);
      if colon.Failure? {
        return Failure(colon.kind);
      }
      assert Left() == start[2..];
      var value := ParseExpression(0);
      r := if value.Failure? then Failure(value.kind) else Success(Entry(key.value, value.value));
    }

    static lemma ListedEntriesNothing(left: Parsed<seq<Entry>>)
      ensures ListedEntries([], left) == left
    {
      if left.Ok? {
        assert [] + left.value == left.value;
      }
    }

    /** The entries of a map literal whose first `key :`, the start of `start`, has been read. */
    method ParseEntries(first: string, ghost start: seq<Token>) returns (r: Result<seq<Entry>>)
      requires Valid() && StartsEntry(start) && MapKey(start) == Some(first) && Left() == start[2..]
      modifies this
      decreases |tokens| - position, 8
      ensures Valid() && depth == old(depth) && active == old(active)
      ensures r.Success? ==> position > old(position)
      ensures Agrees(Entries(start, depth), r)
      ensures Ran(old(most), most, active, OfEntries(start, depth))
    {
      hide Entries, Expression, ListedEntries, MapKey, KeyValue, OfEntries, OfExpression, OfKeyValue, Ran;
      KeyValueUnfolds(start, depth);
      EntryCost(start, depth);
      ghost var spent := OfKeyValue(start, depth);
      BothLaws(spent, FREE, FREE);
      ListedEntriesNothing(Entries(start, depth));
      ListedEntriesStep([], start, depth);
      var value := ParseExpression(0);
      if value.Failure? {
        return Failure(value.kind);
      }
      var entries := [Entry(first, value.value)];
      assert [] + entries == entries;
      var more := EatSymbol(Comma);
      while more
        invariant Valid() && depth == old(depth) && position > old(position) && active == old(active)
        invariant Entries(start, depth) ==
                  if more then ListedEntries(entries, Entries(Left(), depth))
                  else if Starts(Left(), CloseBrace) then Ok(entries, Left()[1..])
                  else Err(Syntax)
        invariant OfEntries(start, depth) == Both(spent, if more then OfEntries(Left(), depth) else FREE)
        invariant Ran(old(most), most, active, spent)
        decreases |tokens| - position, if more then 1 else 0
      {
        ghost var before, cost := most, OfKeyValue(Left(), depth);
        ListedEntriesStep(entries, Left(), depth);
        EntryCost(Left(), depth);
        var entry := ParseKeyValue();
        RanBoth(old(most), before, most, active, spent, cost);
        BothLaws(spent, cost, if entry.Success? && Starts(Left(), Comma) then OfEntries(Left()[1..], depth) else FREE);
        spent := Both(spent, cost);
        BothLaws(spent, FREE, FREE);
        if entry.Failure? {
          return Failure(entry.kind);
        }
        entries := entries + [entry.value];
        more := EatSymbol(Comma);
      }
      BothLaws(spent, FREE, FREE);
      var closing := ExpectSymbol(CloseBrace);
      r := if closing.Failure? then Failure(Syntax) else Success(entries);
    }
  }

  /** `parse`: tokenise, parse one expression, and refuse anything after it. What was active at once is the cost of
      the tokens, whether they are accepted or not. */
  method ParseSource(expression: string) returns (r: Result<Node>, ghost run: Cost)
    ensures match SpelFrontEnd.ParseText(expression)
            case Ok(node, _) => r == Success(node)
            case Err(kind) => r == Failure(kind)
    ensures var tokens := SpelLexer.Lex(expression);
      run == if tokens.None? then FREE else OfExpression(tokens.value, 0, 0)
  {
    hide Expression, OfExpression;
    var tokens := SpelLexer.Tokenize(expression);
    if tokens.None? {
      return Failure(Syntax), FREE;
    }
    var parser := new Parser(tokens.value);
    assert parser.Left() == tokens.value;
    r := parser.ParseExpression(0);
    run := parser.most;
    if r.Success? && parser.position < |parser.tokens| {
      r := Failure(Syntax);
    }
  }
}
