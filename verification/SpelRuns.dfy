/**
 Bounds on a run of the parser (crates/spel/src/parser.rs), on any tokens: how many calls of `parse_expression` are
 active at once, measured by those of `parse_unary` and by the open fallbacks and branches.
 */
module SpelRuns {
  import opened Naturals
  import opened Wrappers
  import opened SpelSyntax
  import opened SpelGrammar
  import opened SpelCost
  import opened SpelCalls
  import opened SpelTokens
  import opened SpelPrinter
  import opened SpelLexer
  import opened SpelText
  import opened SpelFrontEnd
  import opened SpelTokenNesting
  import opened SpelNesting
  import opened SpelPrintedCost

  /** The calls lie between the open branches and seven times the frames and open branches. */
  predicate IsWithin(c: Cost, stretch: nat) {
    Between(c.calls, Max(c.frames, 1), c.choices, stretch)
  }

  /** So for what runs within a call of `parse_expression`; the frames fit the limit, up to the one refused. */
  predicate IsPart(c: Cost, depth: int, stretch: nat) {
    IsWithin(InCall(c), stretch) && depth + c.frames <= MAX_NESTING + 1
  }

  /** So for what runs within a call of `parse_unary`. */
  predicate IsInside(c: Cost, depth: int) {
    IsWithin(InCall(InFrame(c)), 1) && depth + c.frames <= MAX_NESTING + 1
  }

  /** So for a whole expression. */
  predicate IsRun(c: Cost, depth: int, stretch: nat) {
    IsWithin(c, stretch) && 1 <= c.frames && depth + c.frames <= MAX_NESTING + 1
  }

  lemma FreeIsPart(depth: int, stretch: nat)
    requires depth <= MAX_NESTING && 1 <= stretch
    ensures IsPart(FREE, depth, stretch) && IsInside(FREE, depth)
  {
  }

  lemma BothParts(a: Cost, b: Cost, depth: int, stretch: nat)
    requires IsPart(a, depth, stretch) && IsPart(b, depth, stretch)
    ensures IsPart(Both(a, b), depth, stretch)
  {
  }

  lemma BothInside(a: Cost, b: Cost, depth: int)
    requires IsInside(a, depth) && IsInside(b, depth)
    ensures IsInside(Both(a, b), depth)
  {
  }

  lemma FrameIsPart(c: Cost, depth: int, stretch: nat)
    requires IsInside(c, depth + 1) && 1 <= stretch
    ensures IsPart(InFrame(c), depth, stretch)
  {
  }

  lemma RefusedIsPart(depth: int, stretch: nat)
    requires depth <= MAX_NESTING && 1 <= stretch
    ensures IsPart(InFrame(FREE), depth, stretch)
  {
  }

  lemma CallIsRun(unary: Cost, tail: Cost, depth: int, stretch: nat)
    requires IsPart(unary, depth, stretch) && 1 <= unary.frames && IsPart(tail, depth, stretch)
    ensures IsRun(InCall(Both(unary, tail)), depth, stretch)
  {
  }

  lemma BranchIsPart(c: Cost, depth: int)
    requires IsRun(c, depth, 7)
    ensures IsPart(InChoice(c), depth, 7)
  {
  }

  lemma OperandIsPart(c: Cost, depth: int, operator: BinaryOperator, minimum: nat)
    requires Floor(minimum) <= Precedence(operator) && IsRun(c, depth, Stretch(Precedence(operator) + 1))
    ensures IsPart(c, depth, Stretch(minimum))
  {
    hide Stretch, Precedence;
    StretchOfRight(operator, minimum);
  }

  lemma RunIsInside(c: Cost, depth: int)
    requires IsRun(c, depth, 7)
    ensures IsInside(c, depth)
  {
  }

  // Each function of the parser.

  lemma {:induction false} ExpressionRuns(tokens: seq<Token>, depth: int, minimum: nat)
    requires depth <= MAX_NESTING
    ensures IsRun(OfExpression(tokens, depth, minimum), depth, Stretch(minimum))
    ensures var r := Expression(tokens, depth, minimum);
      r.Ok? ==> OfExpression(tokens, depth, minimum).choices == Branches(r.value)
    decreases |tokens|, 5
  {
    hide UnaryExpression, ExpressionTail, OfUnary, OfTail, Branches, Stretch, IsPart, IsRun;
    Stretches();
    var left := UnaryExpression(tokens, depth);
    UnaryRuns(tokens, depth, Stretch(minimum));
    FreeIsPart(depth, Stretch(minimum));
    if left.Ok? {
      TailRuns(left.value, left.rest, depth, minimum);
      CallIsRun(OfUnary(tokens, depth), OfTail(left.value, left.rest, depth, minimum), depth, Stretch(minimum));
    } else {
      CallIsRun(OfUnary(tokens, depth), FREE, depth, Stretch(minimum));
    }
  }

  lemma {:induction false} TailRuns(left: Node, tokens: seq<Token>, depth: int, minimum: nat)
    requires depth <= MAX_NESTING
    ensures IsPart(OfTail(left, tokens, depth, minimum), depth, Stretch(minimum))
    ensures var r := ExpressionTail(left, tokens, depth, minimum);
      r.Ok? ==> Max(Branches(left), OfTail(left, tokens, depth, minimum).choices) == Branches(r.value)
    decreases |tokens|, 4
  {
    hide Expression, ExpressionTail, TernaryTail, OfExpression, OfTail, OfOtherwise, Branches, Stretch, IsPart, IsRun;
    Stretches();
    FreeIsPart(depth, Stretch(minimum));
    TailUnfolds(left, tokens, depth, minimum);
    TailCosts(left, tokens, depth, minimum);
    if minimum == 0 && Starts(tokens, Question2) {
      ElvisRuns(left, tokens[1..], depth);
    } else if minimum == 0 && Starts(tokens, Question) {
      TernaryRuns(left, tokens[1..], depth);
    } else if PeekOperator(tokens).Some? && Precedence(PeekOperator(tokens).value) >= Floor(minimum) {
      OperationRuns(left, PeekOperator(tokens).value, tokens[1..], depth, minimum);
    }
  }

  lemma {:induction false} ElvisRuns(left: Node, tokens: seq<Token>, depth: int)
    requires depth <= MAX_NESTING
    ensures var c := Both(InChoice(OfExpression(tokens, depth, 0)), AfterElvis(left, tokens, depth));
      var fallback := Expression(tokens, depth, 0);
      && IsPart(c, depth, 7)
      && (fallback.Ok? ==>
            var r := ExpressionTail(Elvis(left, fallback.value), fallback.rest, depth, 0);
            r.Ok? ==> Max(Branches(left), c.choices) == Branches(r.value))
    decreases |tokens|, 6
  {
    hide Expression, ExpressionTail, OfExpression, OfTail, Branches, Stretch, IsPart, IsRun;
    Stretches();
    FreeIsPart(depth, 7);
    ExpressionRuns(tokens, depth, 0);
    BranchIsPart(OfExpression(tokens, depth, 0), depth);
    var fallback := Expression(tokens, depth, 0);
    if fallback.Ok? {
      TailRuns(Elvis(left, fallback.value), fallback.rest, depth, 0);
      ElvisBranches(left, fallback.value);
    }
    BothParts(InChoice(OfExpression(tokens, depth, 0)), AfterElvis(left, tokens, depth), depth, 7);
  }

  lemma {:induction false} TernaryRuns(left: Node, tokens: seq<Token>, depth: int)
    requires depth <= MAX_NESTING
    ensures var c := Both(InChoice(OfExpression(tokens, depth, 0)), AfterQuestion(left, tokens, depth));
      && IsPart(c, depth, 7)
      && (TernaryTail(left, tokens, depth).Ok? ==>
            Max(Branches(left), c.choices) == Branches(TernaryTail(left, tokens, depth).value))
    decreases |tokens|, 6
  {
    hide Expression, ExpressionTail, OfExpression, OfOtherwise, Branches, Stretch, IsPart, IsRun;
    Stretches();
    FreeIsPart(depth, 7);
    ExpressionRuns(tokens, depth, 0);
    BranchIsPart(OfExpression(tokens, depth, 0), depth);
    var then_ := Expression(tokens, depth, 0);
    if then_.Ok? && Starts(then_.rest, Colon) {
      OtherwiseRuns(left, then_.value, then_.rest[1..], depth);
    }
    BothParts(InChoice(OfExpression(tokens, depth, 0)), AfterQuestion(left, tokens, depth), depth, 7);
  }

  lemma {:induction false} OtherwiseRuns(condition: Node, then_: Node, tokens: seq<Token>, depth: int)
    requires depth <= MAX_NESTING
    ensures var c := OfOtherwise(condition, then_, tokens, depth);
      var otherwise := Expression(tokens, depth, 0);
      && IsPart(c, depth, 7)
      && (otherwise.Ok? ==>
            var r := ExpressionTail(Ternary(condition, then_, otherwise.value), otherwise.rest, depth, 0);
            r.Ok? ==> Max(Max(Branches(condition), 1 + Branches(then_)), c.choices) == Branches(r.value))
    decreases |tokens|, 6
  {
    hide Expression, ExpressionTail, OfExpression, OfTail, Branches, Stretch, IsPart, IsRun;
    Stretches();
    FreeIsPart(depth, 7);
    ExpressionRuns(tokens, depth, 0);
    var first := InChoice(OfExpression(tokens, depth, 0));
    BranchIsPart(OfExpression(tokens, depth, 0), depth);
    var otherwise := Expression(tokens, depth, 0);
    if otherwise.Ok? {
      var node := Ternary(condition, then_, otherwise.value);
      TailRuns(node, otherwise.rest, depth, 0);
      TernaryBranches(condition, then_, otherwise.value);
      BothParts(first, OfTail(node, otherwise.rest, depth, 0), depth, 7);
    } else {
      BothParts(first, FREE, depth, 7);
    }
  }

  lemma {:induction false} OperationRuns(
      left: Node, operator: BinaryOperator, tokens: seq<Token>, depth: int, minimum: nat)
    requires depth <= MAX_NESTING && Floor(minimum) <= Precedence(operator)
    ensures var c := Both(OfExpression(tokens, depth, Precedence(operator) + 1),
                          AfterOperator(left, operator, tokens, depth, minimum));
      var right := Expression(tokens, depth, Precedence(operator) + 1);
      && IsPart(c, depth, Stretch(minimum))
      && (right.Ok? ==>
            var r := ExpressionTail(Binary(operator, left, right.value), right.rest, depth, minimum);
            r.Ok? ==> Max(Branches(left), c.choices) == Branches(r.value))
    decreases |tokens|, 6
  {
    hide Expression, ExpressionTail, OfExpression, OfTail, Branches, Stretch, IsPart, IsRun, Precedence;
    Stretches();
    FreeIsPart(depth, Stretch(minimum));
    var level := Precedence(operator) + 1;
    ExpressionRuns(tokens, depth, level);
    OperandIsPart(OfExpression(tokens, depth, level), depth, operator, minimum);
    var right := Expression(tokens, depth, level);
    if right.Ok? {
      TailRuns(Binary(operator, left, right.value), right.rest, depth, minimum);
      OperatorBranches(operator, left, right.value);
    }
    BothParts(OfExpression(tokens, depth, level), AfterOperator(left, operator, tokens, depth, minimum), depth,
              Stretch(minimum));
  }

  lemma ElvisBranches(value: Node, fallback: Node)
    ensures Branches(Elvis(value, fallback)) == Max(Branches(value), 1 + Branches(fallback))
  {
  }

  lemma OperatorBranches(operator: BinaryOperator, left: Node, right: Node)
    ensures Branches(Binary(operator, left, right)) == Max(Branches(left), Branches(right))
  {
  }

  lemma {:induction false} UnaryRuns(tokens: seq<Token>, depth: int, stretch: nat)
    requires depth <= MAX_NESTING && 1 <= stretch
    ensures IsPart(OfUnary(tokens, depth), depth, stretch) && OfUnary(tokens, depth).frames >= 1
    ensures var r := UnaryExpression(tokens, depth); r.Ok? ==> OfUnary(tokens, depth).choices == Branches(r.value)
    decreases |tokens|, 4
  {
    hide UnaryOperand, OfOperand, Branches, IsPart, IsInside;
    if depth < MAX_NESTING {
      OperandRuns(tokens, depth + 1);
      FrameIsPart(OfOperand(tokens, depth + 1), depth, stretch);
    } else {
      RefusedIsPart(depth, stretch);
    }
  }

  lemma {:induction false} OperandRuns(tokens: seq<Token>, depth: int)
    requires depth <= MAX_NESTING
    ensures IsInside(OfOperand(tokens, depth), depth)
    ensures var r := UnaryOperand(tokens, depth); r.Ok? ==> OfOperand(tokens, depth).choices == Branches(r.value)
    decreases |tokens|, 3
  {
    hide UnaryExpression, Postfix, OfUnary, OfPostfix, Branches, IsPart, IsInside;
    if tokens != [] && tokens[0] in {Symbol(Bang), Symbol(Minus), Identifier("not")} {
      UnaryRuns(tokens[1..], depth, 1);
      PrefixIsInside(OfUnary(tokens[1..], depth), depth);
      var operand := UnaryExpression(tokens[1..], depth);
      if operand.Ok? {
        PrefixBranches(operand.value);
      }
    } else {
      PostfixRuns(tokens, depth);
    }
  }

  lemma PrefixIsInside(c: Cost, depth: int)
    requires IsPart(c, depth, 1)
    ensures IsInside(c, depth)
  {
  }

  lemma PrefixBranches(operand: Node)
    ensures Branches(Unary(Not, operand)) == Branches(Unary(Negate, operand)) == Branches(operand)
  {
  }

  lemma {:induction false} PostfixRuns(tokens: seq<Token>, depth: int)
    requires depth <= MAX_NESTING
    ensures IsInside(OfPostfix(tokens, depth), depth)
    ensures var r := Postfix(tokens, depth); r.Ok? ==> OfPostfix(tokens, depth).choices == Branches(r.value)
    decreases |tokens|, 2
  {
    hide Primary, PostfixTail, OfPrimary, OfSuffixes, Branches, IsInside;
    FreeIsPart(depth, 1);
    PrimaryRuns(tokens, depth);
    var node := Primary(tokens, depth);
    if node.Ok? {
      SuffixesRun(node.value, node.rest, depth);
      BothInside(OfPrimary(tokens, depth), OfSuffixes(node.value, node.rest, depth), depth);
    } else {
      BothInside(OfPrimary(tokens, depth), FREE, depth);
    }
  }

  lemma {:induction false} SuffixesRun(node: Node, tokens: seq<Token>, depth: int)
    requires depth <= MAX_NESTING
    ensures IsInside(OfSuffixes(node, tokens, depth), depth)
    ensures var r := PostfixTail(node, tokens, depth);
      r.Ok? ==> Max(Branches(node), OfSuffixes(node, tokens, depth).choices) == Branches(r.value)
    decreases |tokens|, 1
  {
    hide PostfixTail, OfSuffixes, Branches, IsInside;
    if tokens != [] && tokens[0] in {Symbol(OpenBracket), Symbol(BangBracket), Symbol(QuestionBracket)} {
      BracketRuns(node, tokens, depth);
    } else if Starts(tokens, SafeDot) || Starts(tokens, Dot) {
      MemberRuns(node, tokens, depth);
    } else {
      FreeIsPart(depth, 1);
      NoSuffixes(node, tokens, depth);
    }
  }

  lemma {:induction false} BracketRuns(node: Node, tokens: seq<Token>, depth: int)
    requires depth <= MAX_NESTING
    requires tokens != [] && tokens[0] in {Symbol(OpenBracket), Symbol(BangBracket), Symbol(QuestionBracket)}
    ensures IsInside(OfSuffixes(node, tokens, depth), depth)
    ensures var r := PostfixTail(node, tokens, depth);
      r.Ok? ==> Max(Branches(node), OfSuffixes(node, tokens, depth).choices) == Branches(r.value)
    decreases |tokens|, 0
  {
    hide Expression, Bracketed, PostfixTail, OfExpression, OfSuffixes, Branches, Stretch, IsInside, IsRun, WithBody;
    Stretches();
    FreeIsPart(depth, 1);
    var inside := OfExpression(tokens[1..], depth, 0);
    ExpressionRuns(tokens[1..], depth, 0);
    RunIsInside(inside, depth);
    BracketUnfolds(node, tokens, depth);
    BracketCosts(node, tokens, depth);
    BracketedIs(tokens[1..], depth);
    var body := Bracketed(tokens[1..], depth);
    if body.Ok? {
      var larger := WithBody(node, tokens[0].symbol, body.value);
      SuffixesRun(larger, body.rest, depth);
      WithBodyBranches(node, tokens[0].symbol, body.value);
      BothInside(inside, OfSuffixes(larger, body.rest, depth), depth);
    } else {
      BothInside(inside, FREE, depth);
    }
  }

  lemma BracketedIs(tokens: seq<Token>, depth: int)
    ensures var body := Bracketed(tokens, depth);
      body.Ok? ==> Expression(tokens, depth, 0).Ok? && Expression(tokens, depth, 0).value == body.value
  {
    hide Expression;
  }

  lemma WithBodyBranches(node: Node, open: Punctuation, body: Node)
    ensures Branches(WithBody(node, open, body)) == Max(Branches(node), Branches(body))
  {
    hide Branches;
    BodyUnfolds(node, body);
  }

  lemma {:induction false} MemberRuns(node: Node, tokens: seq<Token>, depth: int)
    requires depth <= MAX_NESTING && (Starts(tokens, SafeDot) || Starts(tokens, Dot))
    ensures IsInside(OfSuffixes(node, tokens, depth), depth)
    ensures var r := PostfixTail(node, tokens, depth);
      r.Ok? ==> Max(Branches(node), OfSuffixes(node, tokens, depth).choices) == Branches(r.value)
    decreases |tokens|, 0
  {
    hide Arguments, PostfixTail, OfArguments, OfSuffixes, Branches, ItemsBranches, IsInside;
    FreeIsPart(depth, 1);
    MemberUnfolds(node, tokens, depth);
    MemberCosts(node, tokens, depth);
    if |tokens| > 1 && tokens[1].Identifier? {
      var name, safe := tokens[1].name, Starts(tokens, SafeDot);
      if Starts(tokens[2..], OpenParen) {
        ArgumentsRun(tokens[3..], depth);
        var arguments := Arguments(tokens[3..], depth);
        if arguments.Ok? {
          var larger := Call(Some(node), name, arguments.value, safe);
          SuffixesRun(larger, arguments.rest, depth);
          CallBranches(node, name, arguments.value, safe);
          BothInside(OfArguments(tokens[3..], depth), OfSuffixes(larger, arguments.rest, depth), depth);
        } else {
          BothInside(OfArguments(tokens[3..], depth), FREE, depth);
        }
      } else {
        SuffixesRun(Property(node, name, safe), tokens[2..], depth);
        PropertyBranches(node, name, safe);
      }
    }
  }

  lemma CallBranches(node: Node, name: string, arguments: seq<Node>, safe: bool)
    ensures Branches(Call(Some(node), name, arguments, safe)) == Max(Branches(node), ItemsBranches(arguments))
    ensures Branches(Call(None, name, arguments, safe)) == ItemsBranches(arguments)
  {
  }

  lemma PropertyBranches(node: Node, name: string, safe: bool)
    ensures Branches(Property(node, name, safe)) == Branches(node)
  {
  }

  lemma {:induction false} ArgumentsRun(tokens: seq<Token>, depth: int)
    requires depth <= MAX_NESTING
    ensures IsInside(OfArguments(tokens, depth), depth)
    ensures var r := Arguments(tokens, depth); r.Ok? ==> OfArguments(tokens, depth).choices == ItemsBranches(r.value)
    decreases |tokens|, 7
  {
    hide Items, OfItems, IsInside, Branches;
    if Starts(tokens, CloseParen) {
      FreeIsPart(depth, 1);
    } else {
      ItemsRun(tokens, depth, CloseParen);
    }
  }

  lemma {:induction false} ItemsRun(tokens: seq<Token>, depth: int, close: Punctuation)
    requires depth <= MAX_NESTING
    ensures IsInside(OfItems(tokens, depth), depth)
    ensures var r := Items(tokens, depth, close); r.Ok? ==> OfItems(tokens, depth).choices == ItemsBranches(r.value)
    decreases |tokens|, 6
  {
    hide Expression, Items, OfExpression, OfItems, IsInside, IsRun, Branches, ItemsBranches, Stretch;
    Stretches();
    FreeIsPart(depth, 1);
    var first := OfExpression(tokens, depth, 0);
    ExpressionRuns(tokens, depth, 0);
    RunIsInside(first, depth);
    ItemsUnfold(tokens, depth, close);
    ItemsCost(tokens, depth);
    var item := Expression(tokens, depth, 0);
    if item.Ok? && Starts(item.rest, Comma) {
      ItemsRun(item.rest[1..], depth, close);
      var others := Items(item.rest[1..], depth, close);
      if others.Ok? {
        MoreItemBranches(item.value, others.value);
      }
      BothInside(first, OfItems(item.rest[1..], depth), depth);
    } else {
      BothInside(first, FREE, depth);
      if item.Ok? {
        MoreItemBranches(item.value, []);
        assert [item.value] + [] == [item.value];
      }
    }
  }

  lemma MoreItemBranches(item: Node, others: seq<Node>)
    ensures ItemsBranches([item] + others) == Max(Branches(item), ItemsBranches(others)) && ItemsBranches([]) == 0
  {
    hide Branches;
    assert ([item] + others)[1..] == others;
  }

  lemma {:induction false} PrimaryRuns(tokens: seq<Token>, depth: int)
    requires depth <= MAX_NESTING
    ensures IsInside(OfPrimary(tokens, depth), depth)
    ensures var r := Primary(tokens, depth); r.Ok? ==> OfPrimary(tokens, depth).choices == Branches(r.value)
    decreases |tokens|, 1
  {
    hide Expression, InlineCollection, Named, OfExpression, OfCollection, OfArguments, IsInside, IsRun, Branches,
      Stretch;
    Stretches();
    FreeIsPart(depth, 1);
    LeafBranches();
    if Starts(tokens, OpenParen) {
      ExpressionRuns(tokens[1..], depth, 0);
      RunIsInside(OfExpression(tokens[1..], depth, 0), depth);
    } else if Starts(tokens, OpenBrace) {
      CollectionRuns(tokens[1..], depth);
    } else if tokens != [] && tokens[0].Identifier? {
      NamedRuns(tokens, depth);
    }
  }

  lemma LeafBranches()
    ensures Branches(Null) == 0
    ensures forall b :: Branches(Bool(b)) == 0
    ensures forall n :: Branches(Int(n)) == 0
    ensures forall s :: Branches(Float(s)) == 0 && Branches(Str(s)) == 0 && Branches(Root(s)) == 0
    ensures forall s :: Branches(Variable(s)) == 0 && Branches(Bean(s)) == 0 && Branches(Type(s)) == 0
  {
  }

  lemma {:induction false} NamedRuns(tokens: seq<Token>, depth: int)
    requires depth <= MAX_NESTING && tokens != [] && tokens[0].Identifier?
    ensures IsInside(OfPrimary(tokens, depth), depth)
    ensures var r := Primary(tokens, depth); r.Ok? ==> OfPrimary(tokens, depth).choices == Branches(r.value)
    decreases |tokens|, 0
  {
    hide TypeName, Arguments, OfArguments, IsInside, Branches, ItemsBranches;
    FreeIsPart(depth, 1);
    LeafBranches();
    if IsHelperCall(tokens) {
      assert tokens[1..][1..] == tokens[2..];
      ArgumentsRun(tokens[2..], depth);
      var arguments := Arguments(tokens[2..], depth);
      if arguments.Ok? {
        CallBranches(Null, tokens[0].name, arguments.value, false);
      }
    }
  }

  lemma {:induction false} CollectionRuns(tokens: seq<Token>, depth: int)
    requires depth <= MAX_NESTING
    ensures IsInside(OfCollection(tokens, depth), depth)
    ensures var r := InlineCollection(tokens, depth); r.Ok? ==> OfCollection(tokens, depth).choices == Branches(r.value)
    decreases |tokens|, 7
  {
    hide Items, Entries, OfItems, OfEntries, IsInside, Branches, ItemsBranches, EntriesBranches;
    CollectionBranches();
    if Starts(tokens, CloseBrace) {
      FreeIsPart(depth, 1);
      NoBranches();
    } else if StartsEntry(tokens) {
      EntriesRun(tokens, depth);
    } else {
      ItemsRun(tokens, depth, CloseBrace);
    }
  }

  lemma {:induction false} EntriesRun(tokens: seq<Token>, depth: int)
    requires depth <= MAX_NESTING
    ensures IsInside(OfEntries(tokens, depth), depth)
    ensures var r := Entries(tokens, depth); r.Ok? ==> OfEntries(tokens, depth).choices == EntriesBranches(r.value)
    decreases |tokens|, 6
  {
    hide Expression, Entries, OfExpression, OfEntries, IsInside, IsRun, Branches, EntriesBranches, Stretch;
    Stretches();
    FreeIsPart(depth, 1);
    EntriesUnfold(tokens, depth);
    EntriesCost(tokens, depth);
    if StartsEntry(tokens) {
      var first := OfExpression(tokens[2..], depth, 0);
      ExpressionRuns(tokens[2..], depth, 0);
      RunIsInside(first, depth);
      var value := Expression(tokens[2..], depth, 0);
      if value.Ok? && Starts(value.rest, Comma) {
        EntriesRun(value.rest[1..], depth);
        var others := Entries(value.rest[1..], depth);
        if others.Ok? {
          MoreEntryBranches(Entry(MapKey(tokens).value, value.value), others.value);
        }
        BothInside(first, OfEntries(value.rest[1..], depth), depth);
      } else {
        BothInside(first, FREE, depth);
        if value.Ok? {
          var entry := Entry(MapKey(tokens).value, value.value);
          MoreEntryBranches(entry, []);
          assert [entry] + [] == [entry];
        }
      }
    }
  }

  lemma MoreEntryBranches(entry: Entry, others: seq<Entry>)
    ensures EntriesBranches([entry] + others) == Max(Branches(entry.value), EntriesBranches(others))
    ensures EntriesBranches([]) == 0
  {
    hide Branches;
    assert ([entry] + others)[1..] == others;
  }

  // Whole runs.

  /** What the parser's counters come to on any tokens, accepted or not. */
  function Run(tokens: seq<Token>): Cost {
    OfExpression(tokens, 0, 0)
  }

  /** The calls of `parse_expression` lie between the open branches and seven times the frames and open branches. On
      accepted tokens the frames are their nesting, and the branches those of the tree. */
  lemma RunBounds(tokens: seq<Token>)
    ensures Run(tokens).choices < Run(tokens).calls <= 7 * (Run(tokens).frames + Run(tokens).choices)
    ensures 1 <= Run(tokens).frames <= MAX_NESTING + 1
    ensures Parse(tokens).Ok? ==>
      Run(tokens).frames == Nesting(tokens) && Run(tokens).choices == Branches(Parse(tokens).value)
  {
    hide Expression, OfExpression, Branches, Nesting;
    ExpressionRuns(tokens, 0, 0);
    if Parse(tokens).Ok? {
      FramesAreNesting(tokens);
    }
  }

  ghost predicate RunsWithin(family: seq<Token> -> bool, factor: nat) {
    forall tokens | family(tokens) :: Run(tokens).calls <= factor * Run(tokens).frames
  }

  ghost predicate ChoicesWithin(family: seq<Token> -> bool, factor: nat) {
    forall tokens | family(tokens) :: Run(tokens).choices <= factor * Run(tokens).frames
  }

  /** On some texts the calls are bounded by a multiple of the frames if and only if the open branches are. */
  lemma RunsBoundedTogether(family: seq<Token> -> bool)
    ensures (exists factor: nat :: RunsWithin(family, factor)) <==>
        (exists factor: nat :: ChoicesWithin(family, factor))
  {
    hide Run, RunsWithin, ChoicesWithin;
    if factor: nat :| RunsWithin(family, factor) {
      FewChoices(family, factor);
    }
    if factor: nat :| ChoicesWithin(family, factor) {
      ShortRuns(family, factor);
    }
  }

  lemma FewChoices(family: seq<Token> -> bool, factor: nat)
    requires RunsWithin(family, factor)
    ensures ChoicesWithin(family, factor)
  {
    hide Run;
    forall tokens | family(tokens)
      ensures Run(tokens).choices <= factor * Run(tokens).frames
    {
      RunBounds(tokens);
    }
  }

  lemma ShortRuns(family: seq<Token> -> bool, factor: nat)
    requires ChoicesWithin(family, factor)
    ensures RunsWithin(family, 7 * (factor + 1))
  {
    hide Run;
    forall tokens | family(tokens)
      ensures Run(tokens).calls <= 7 * (factor + 1) * Run(tokens).frames
    {
      RunBounds(tokens);
      var frames := Run(tokens).frames;
      assert 7 * (factor + 1) * frames == 7 * (factor * frames) + 7 * frames;
    }
  }

  /** The counters on a printed tree are the measures of the tree. */
  lemma PrintedRun(node: Node)
    requires WellFormed(node) && Frames(node, 0) <= MAX_NESTING
    ensures Run(Print(node)) == Cost(Calls(node, 0), Frames(node, 0), Branches(node))
  {
    hide Expression, OfExpression, PrintTo, WellFormed, Frames, Calls, Branches, Nesting;
    NothingFollows();
    CostOfExpression(node, 0, [], 0);
    PrintedNesting(node);
    AcceptedExactly(Print(node));
    RunBounds(Print(node));
  }

  /** `1 ?: 1 ?: ... ?: 1` is accepted with one frame and one call more than it has operators, however long it is. */
  lemma ChainRuns(count: nat)
    ensures var text := Render(Print(Chain(count)));
      && ParseText(text) == Ok(Chain(count), [])
      && Lex(text).Some? && Run(Lex(text).value) == Cost(count + 1, 1, count)
  {
    hide Run, Parse, Lex, Render, PrintTo, WellFormed, Frames, Calls, Branches, ValidTokens, Chain;
    ChainMeasures(count);
    ChainIsAccepted(count);
    NothingFollows();
    ValidPrint(Chain(count), 0, []);
    LexRender(Print(Chain(count)));
    PrintedRun(Chain(count));
  }
}
