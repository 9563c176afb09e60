/**
 What a run of the parser (crates/spel/src/parser.rs) comes to, whether it succeeds or not: how many calls of
 `parse_expression` and of `parse_unary` are active at once, and how many of the former are for fallbacks of elvis
 operators and branches of ternaries. Each function follows the one of SpelGrammar of the same shape.
 */
module SpelCost {
  import opened Naturals
  import opened Wrappers
  import opened SpelSyntax
  import opened SpelGrammar

  /** The most that are active at once, beyond those that are when the run begins. */
  datatype Cost = Cost(calls: nat, frames: nat, choices: nat)

  const FREE := Cost(0, 0, 0)

  /** One after the other. */
  function Both(a: Cost, b: Cost): Cost {
    Cost(Max(a.calls, b.calls), Max(a.frames, b.frames), Max(a.choices, b.choices))
  }

  function InCall(c: Cost): Cost { c.(calls := c.calls + 1) }

  function InFrame(c: Cost): Cost { c.(frames := c.frames + 1) }

  function InChoice(c: Cost): Cost { c.(choices := c.choices + 1) }

  function Plus(a: Cost, b: Cost): Cost {
    Cost(a.calls + b.calls, a.frames + b.frames, a.choices + b.choices)
  }

  function OfExpression(tokens: seq<Token>, depth: int, minimum: nat): Cost
    decreases |tokens|, 5
  {
    var left := UnaryExpression(tokens, depth);
    InCall(Both(OfUnary(tokens, depth), if left.Err? then FREE else OfTail(left.value, left.rest, depth, minimum)))
  }

  function OfTail(left: Node, tokens: seq<Token>, depth: int, minimum: nat): Cost
    decreases |tokens|, 4
  {
    if minimum == 0 && Starts(tokens, Question2) then
      var fallback := Expression(tokens[1..], depth, 0);
      Both(InChoice(OfExpression(tokens[1..], depth, 0)),
           if fallback.Err? then FREE else OfTail(Elvis(left, fallback.value), fallback.rest, depth, 0))
    else if minimum == 0 && Starts(tokens, Question) then
      var then_ := Expression(tokens[1..], depth, 0);
      Both(InChoice(OfExpression(tokens[1..], depth, 0)),
           if then_.Err? || !Starts(then_.rest, Colon) then FREE
           else OfOtherwise(left, then_.value, then_.rest[1..], depth))
    else if PeekOperator(tokens).Some? && Precedence(PeekOperator(tokens).value) >= Floor(minimum) then
      var operator := PeekOperator(tokens).value;
      var right := Expression(tokens[1..], depth, Precedence(operator) + 1);
      Both(OfExpression(tokens[1..], depth, Precedence(operator) + 1),
           if right.Err? then FREE else OfTail(Binary(operator, left, right.value), right.rest, depth, minimum))
    else FREE
  }

  /** The second branch of a ternary and what follows it. */
  function OfOtherwise(condition: Node, then_: Node, tokens: seq<Token>, depth: int): Cost
    decreases |tokens|, 6
  {
    var otherwise := Expression(tokens, depth, 0);
    Both(InChoice(OfExpression(tokens, depth, 0)),
         if otherwise.Err? then FREE
         else OfTail(Ternary(condition, then_, otherwise.value), otherwise.rest, depth, 0))
  }

  /** A call that is refused for the limit counts as well. */
  function OfUnary(tokens: seq<Token>, depth: int): Cost
    decreases |tokens|, 4
  {
    InFrame(if depth >= MAX_NESTING then FREE else OfOperand(tokens, depth + 1))
  }

  function OfOperand(tokens: seq<Token>, depth: int): Cost
    decreases |tokens|, 3
  {
    if tokens != [] && tokens[0] in {Symbol(Bang), Symbol(Minus), Identifier("not")} then OfUnary(tokens[1..], depth)
    else OfPostfix(tokens, depth)
  }

  function OfPostfix(tokens: seq<Token>, depth: int): Cost
    decreases |tokens|, 2
  {
    var node := Primary(tokens, depth);
    Both(OfPrimary(tokens, depth), if node.Err? then FREE else OfSuffixes(node.value, node.rest, depth))
  }

  function OfSuffixes(node: Node, tokens: seq<Token>, depth: int): Cost
    decreases |tokens|, 1
  {
    if tokens != [] && tokens[0] in {Symbol(OpenBracket), Symbol(BangBracket), Symbol(QuestionBracket)} then
      var body := Bracketed(tokens[1..], depth);
      Both(OfExpression(tokens[1..], depth, 0),
           if body.Err? then FREE else OfSuffixes(WithBody(node, tokens[0].symbol, body.value), body.rest, depth))
    else if (Starts(tokens, SafeDot) || Starts(tokens, Dot)) && |tokens| > 1 && tokens[1].Identifier? then
      var name, safe := tokens[1].name, Starts(tokens, SafeDot);
      if Starts(tokens[2..], OpenParen) then
        var arguments := Arguments(tokens[3..], depth);
        Both(OfArguments(tokens[3..], depth),
             if arguments.Err? then FREE
             else OfSuffixes(Call(Some(node), name, arguments.value, safe), arguments.rest, depth))
      else OfSuffixes(Property(node, name, safe), tokens[2..], depth)
    else FREE
  }

  function OfArguments(tokens: seq<Token>, depth: int): Cost
    decreases |tokens|, 7
  {
    if Starts(tokens, CloseParen) then FREE else OfItems(tokens, depth)
  }

  function OfItems(tokens: seq<Token>, depth: int): Cost
    decreases |tokens|, 6
  {
    var first := Expression(tokens, depth, 0);
    Both(OfExpression(tokens, depth, 0),
         if first.Ok? && Starts(first.rest, Comma) then OfItems(first.rest[1..], depth) else FREE)
  }

  function OfPrimary(tokens: seq<Token>, depth: int): Cost
    decreases |tokens|, 1
  {
    if Starts(tokens, OpenParen) then OfExpression(tokens[1..], depth, 0)
    else if Starts(tokens, OpenBrace) then OfCollection(tokens[1..], depth)
    else if IsHelperCall(tokens) then OfArguments(tokens[2..], depth)
    else FREE
  }

  predicate IsHelperCall(tokens: seq<Token>) {
    && tokens != [] && tokens[0].Identifier? && Starts(tokens[1..], OpenParen)
    && tokens[0].name !in {"true", "false", "null", "new", "T"}
  }

  function OfCollection(tokens: seq<Token>, depth: int): Cost
    decreases |tokens|, 7
  {
    if Starts(tokens, CloseBrace) then FREE
    else if StartsEntry(tokens) then OfEntries(tokens, depth)
    else OfItems(tokens, depth)
  }

  function OfEntries(tokens: seq<Token>, depth: int): Cost
    decreases |tokens|, 6
  {
    if !StartsEntry(tokens) then FREE else
    var value := Expression(tokens[2..], depth, 0);
    Both(OfExpression(tokens[2..], depth, 0),
         if value.Ok? && Starts(value.rest, Comma) then OfEntries(value.rest[1..], depth) else FREE)
  }

  // One step of each loop.

  function AfterElvis(left: Node, tokens: seq<Token>, depth: int): Cost {
    var fallback := Expression(tokens, depth, 0);
    if fallback.Err? then FREE else OfTail(Elvis(left, fallback.value), fallback.rest, depth, 0)
  }

  function AfterQuestion(left: Node, tokens: seq<Token>, depth: int): Cost {
    var then_ := Expression(tokens, depth, 0);
    if then_.Err? || !Starts(then_.rest, Colon) then FREE else OfOtherwise(left, then_.value, then_.rest[1..], depth)
  }

  function AfterOperator(left: Node, operator: BinaryOperator, tokens: seq<Token>, depth: int, minimum: nat): Cost {
    var right := Expression(tokens, depth, Precedence(operator) + 1);
    if right.Err? then FREE else OfTail(Binary(operator, left, right.value), right.rest, depth, minimum)
  }

  lemma TailCosts(left: Node, tokens: seq<Token>, depth: int, minimum: nat)
    ensures OfTail(left, tokens, depth, minimum) ==
      if minimum == 0 && Starts(tokens, Question2) then
        Both(InChoice(OfExpression(tokens[1..], depth, 0)), AfterElvis(left, tokens[1..], depth))
      else if minimum == 0 && Starts(tokens, Question) then
        Both(InChoice(OfExpression(tokens[1..], depth, 0)), AfterQuestion(left, tokens[1..], depth))
      else if PeekOperator(tokens).Some? && Precedence(PeekOperator(tokens).value) >= Floor(minimum) then
        var operator := PeekOperator(tokens).value;
        Both(OfExpression(tokens[1..], depth, Precedence(operator) + 1),
             AfterOperator(left, operator, tokens[1..], depth, minimum))
      else FREE
  {
    hide Expression, OfExpression, OfOtherwise;
  }

  lemma BracketCosts(node: Node, tokens: seq<Token>, depth: int)
    requires tokens != [] && tokens[0] in {Symbol(OpenBracket), Symbol(BangBracket), Symbol(QuestionBracket)}
    ensures var body := Bracketed(tokens[1..], depth);
      OfSuffixes(node, tokens, depth)
        == Both(OfExpression(tokens[1..], depth, 0),
                if body.Err? then FREE else OfSuffixes(WithBody(node, tokens[0].symbol, body.value), body.rest, depth))
  {
    hide Bracketed, OfExpression, WithBody;
  }

  lemma MemberCosts(node: Node, tokens: seq<Token>, depth: int)
    requires Starts(tokens, SafeDot) || Starts(tokens, Dot)
    ensures OfSuffixes(node, tokens, depth) ==
      var safe := Starts(tokens, SafeDot);
      if |tokens| == 1 || !tokens[1].Identifier? then FREE
      else if Starts(tokens[2..], OpenParen) then
        var arguments := Arguments(tokens[3..], depth);
        Both(OfArguments(tokens[3..], depth),
             if arguments.Err? then FREE
             else OfSuffixes(Call(Some(node), tokens[1].name, arguments.value, safe), arguments.rest, depth))
      else OfSuffixes(Property(node, tokens[1].name, safe), tokens[2..], depth)
  {
    hide Arguments, OfArguments;
  }

  lemma ItemsCost(tokens: seq<Token>, depth: int)
    ensures var first := Expression(tokens, depth, 0);
      OfItems(tokens, depth)
        == Both(OfExpression(tokens, depth, 0),
                if first.Ok? && Starts(first.rest, Comma) then OfItems(first.rest[1..], depth) else FREE)
  {
    hide Expression, OfExpression;
  }

  lemma EntriesCost(tokens: seq<Token>, depth: int)
    ensures OfEntries(tokens, depth) ==
      if !StartsEntry(tokens) then FREE else
      var value := Expression(tokens[2..], depth, 0);
      Both(OfExpression(tokens[2..], depth, 0),
           if value.Ok? && Starts(value.rest, Comma) then OfEntries(value.rest[1..], depth) else FREE)
  {
    hide Expression, OfExpression;
  }

  lemma NoSuffixes(node: Node, tokens: seq<Token>, depth: int)
    requires tokens == [] || tokens[0] !in {Symbol(OpenBracket), Symbol(BangBracket), Symbol(QuestionBracket)}
    requires !Starts(tokens, SafeDot) && !Starts(tokens, Dot)
    ensures PostfixTail(node, tokens, depth) == Ok(node, tokens) && OfSuffixes(node, tokens, depth) == FREE
  {
  }

  /** The second branch of a ternary with the first. */
  function OfBranches(tokens: seq<Token>, depth: int): Cost {
    var then_ := Expression(tokens, depth, 0);
    Both(InChoice(OfExpression(tokens, depth, 0)),
         if then_.Ok? && Starts(then_.rest, Colon) then InChoice(OfExpression(then_.rest[1..], depth, 0)) else FREE)
  }

  // Counters.

  predicate IsBelow(a: Cost, b: Cost) {
    a.calls <= b.calls && a.frames <= b.frames && a.choices <= b.choices
  }

  /** What was run had this cost: `most` has become `after`, with so many active all the time. */
  predicate Ran(most: Cost, after: Cost, active: Cost, c: Cost) {
    after == Both(most, Plus(active, c))
  }

  lemma RanNothing(most: Cost, active: Cost)
    requires IsBelow(active, most)
    ensures Ran(most, most, active, FREE)
  {
  }

  lemma RanBoth(first: Cost, second: Cost, third: Cost, active: Cost, a: Cost, b: Cost)
    requires Ran(first, second, active, a) && Ran(second, third, active, b)
    ensures Ran(first, third, active, Both(a, b))
  {
  }

  /** What ran in one more call, frame or choice. */
  lemma RanIn(most: Cost, after: Cost, active: Cost, c: Cost)
    ensures Ran(Both(most, InCall(active)), after, InCall(active), c) ==> Ran(most, after, active, InCall(c))
    ensures Ran(Both(most, InFrame(active)), after, InFrame(active), c) ==> Ran(most, after, active, InFrame(c))
    ensures Ran(Both(most, InChoice(active)), after, InChoice(active), c) ==> Ran(most, after, active, InChoice(c))
  {
  }

  lemma BothLaws(a: Cost, b: Cost, c: Cost)
    ensures Both(a, Both(b, c)) == Both(Both(a, b), c) && Both(a, FREE) == a == Both(FREE, a)
  {
  }
}
