/**
 What reading a printed tree costs: the calls of `parse_expression` (crates/spel/src/parser.rs) that are active at
 once are exactly those that `Calls` counts on the tree.
 */
module SpelPrintedCost {
  import opened Naturals
  import opened Wrappers
  import opened SpelSyntax
  import opened SpelGrammar
  import opened SpelPrinter
  import opened SpelRoundTrip
  import opened SpelCost
  import opened SpelCalls

  lemma {:induction false} CostOfItems(items: seq<Node>, close: Punctuation, rest: seq<Token>, depth: int)
    requires items != [] && AllWellFormed(items) && close in {CloseParen, CloseBrace}
    requires depth + ItemsFrames(items) <= MAX_NESTING
    ensures OfItems(ItemsTo(items, [Symbol(close)] + rest), depth).calls == ItemsCalls(items)
    decreases items, 0, 0
  {
    hide Expression, PrintTo, WellFormed, Frames, OfExpression, OfItems, Calls;
    var after := [Symbol(close)] + rest;
    ItemsCost(ItemsTo(items, after), depth);
    if |items| == 1 {
      ParsesExpression(items[0], 0, after, depth);
      CostOfExpression(items[0], 0, after, depth);
    } else {
      var others := [Symbol(Comma)] + ItemsTo(items[1..], after);
      ParsesExpression(items[0], 0, others, depth);
      CostOfExpression(items[0], 0, others, depth);
      CostOfItems(items[1..], close, rest, depth);
      assert others[1..] == ItemsTo(items[1..], after);
    }
  }

  lemma {:induction false} CostOfEntries(entries: seq<Entry>, rest: seq<Token>, depth: int)
    requires entries != [] && AllEntriesWellFormed(entries)
    requires depth + EntriesFrames(entries) <= MAX_NESTING
    ensures OfEntries(EntriesTo(entries, [Symbol(CloseBrace)] + rest), depth).calls == EntriesCalls(entries)
    decreases entries, 0, 0
  {
    hide Expression, PrintTo, WellFormed, Frames, OfExpression, OfEntries, Calls;
    var after := [Symbol(CloseBrace)] + rest;
    var value := entries[0].value;
    var others := if |entries| == 1 then after else [Symbol(Comma)] + EntriesTo(entries[1..], after);
    EntriesCost(EntriesTo(entries, after), depth);
    assert EntriesTo(entries, after)[2..] == PrintTo(value, 0, others);
    ParsesExpression(value, 0, others, depth);
    CostOfExpression(value, 0, others, depth);
    if |entries| > 1 {
      CostOfEntries(entries[1..], rest, depth);
      assert others[1..] == EntriesTo(entries[1..], after);
    }
  }

  lemma CostOfList(items: seq<Node>, rest: seq<Token>, depth: int)
    requires AllWellFormed(items) && depth + ItemsFrames(items) <= MAX_NESTING
    ensures OfCollection(ItemsTo(items, [Symbol(CloseBrace)] + rest), depth).calls == ItemsCalls(items)
    decreases items, 1
  {
    hide Expression, PrintTo, WellFormed, AllWellFormed, Frames, ItemsFrames, OfItems, OfEntries, Calls;
    if items != [] {
      ListStart(items, CloseBrace, rest, depth);
      CostOfItems(items, CloseBrace, rest, depth);
    }
  }

  lemma CostOfArguments(items: seq<Node>, rest: seq<Token>, depth: int)
    requires AllWellFormed(items) && depth + ItemsFrames(items) <= MAX_NESTING
    ensures OfArguments(ItemsTo(items, [Symbol(CloseParen)] + rest), depth).calls == ItemsCalls(items)
    decreases items, 1
  {
    hide Expression, PrintTo, WellFormed, AllWellFormed, Frames, ItemsFrames, OfItems, Calls;
    if items != [] {
      ListStart(items, CloseParen, rest, depth);
      CostOfItems(items, CloseParen, rest, depth);
    }
  }

  lemma CostOfGroup(node: Node, rest: seq<Token>, depth: int)
    requires WellFormed(node) && Level(node) < 8 && depth + BareFrames(node) <= MAX_NESTING
    ensures OfPostfix(PrintTo(node, 8, rest), depth).calls
        == Max(Calls(node, 8) - 1, OfSuffixes(node, rest, depth).calls)
    decreases node, 1, 0, 0
  {
    hide Expression, Postfix, PostfixTail, BareTo, WellFormed, BareFrames, OfExpression, OfSuffixes, BareCalls;
    var inner := BareTo(node, [Symbol(CloseParen)] + rest);
    ParsesExpression(node, 0, [Symbol(CloseParen)] + rest, depth);
    CostOfExpression(node, 0, [Symbol(CloseParen)] + rest, depth);
    GroupCost(inner, node, rest, depth);
  }

  lemma GroupCost(tokens: seq<Token>, node: Node, rest: seq<Token>, depth: int)
    requires Expression(tokens, depth, 0) == Ok(node, [Symbol(CloseParen)] + rest)
    ensures OfPostfix([Symbol(OpenParen)] + tokens, depth)
         == Both(OfExpression(tokens, depth, 0), OfSuffixes(node, rest, depth))
  {
    hide Expression, OfExpression, OfSuffixes;
    assert ([Symbol(OpenParen)] + tokens)[1..] == tokens;
    assert ([Symbol(CloseParen)] + rest)[1..] == rest;
    assert Primary([Symbol(OpenParen)] + tokens, depth) == Ok(node, rest);
  }

  lemma {:induction false} CostOfPostfix(node: Node, rest: seq<Token>, depth: int)
    requires WellFormed(node) && !Starts(rest, OpenParen)
    requires depth + Frames(node, 8) <= MAX_NESTING + 1
    ensures OfPostfix(PrintTo(node, 8, rest), depth).calls
        == Max(Calls(node, 8) - 1, OfSuffixes(node, rest, depth).calls)
    decreases node, if Level(node) < 8 then 1 else 0, 0, 2
  {
    hide Postfix, PostfixTail, Primary, OfPostfix, OfSuffixes, OfPrimary, BareTo, BareCalls, BareFrames;
    if Level(node) < 8 {
      CostOfGroup(node, rest, depth);
    } else if node.Index? || node.Projection? || node.Selection? {
      CostOfSuffixed(node, rest, depth);
    } else if node.Property? || (node.Call? && node.receiver.Some?) {
      CostOfMember(node, rest, depth);
    } else {
      CostOfPrimary(node, rest, depth);
      ParsesPrimary(node, rest, depth);
      PrimaryCost(BareTo(node, rest), node, rest, depth);
    }
  }

  lemma {:induction false} CostOfSuffixed(node: Node, rest: seq<Token>, depth: int)
    requires WellFormed(node) && (node.Index? || node.Projection? || node.Selection?)
    requires depth + BareFrames(node) <= MAX_NESTING + 1
    ensures OfPostfix(BareTo(node, rest), depth).calls == Max(BareCalls(node) - 1, OfSuffixes(node, rest, depth).calls)
    decreases node, 0, 0, 0, 1
  {
    hide OfPostfix, OfSuffixes, PrintTo, BareTo, Frames, Calls, BareFrames, BareCalls;
    var body := if node.Index? then node.index else node.body;
    var open := if node.Index? then OpenBracket else if node.Projection? then BangBracket else QuestionBracket;
    BodyUnfolds(node.target, body);
    SuffixPrints(node.target, open, body, rest);
    CostOfSuffix(node.target, open, body, rest, depth);
  }

  lemma SuffixPrints(target: Node, open: Punctuation, body: Node, rest: seq<Token>)
    requires open in {OpenBracket, BangBracket, QuestionBracket}
    ensures BareTo(WithBody(target, open, body), rest)
         == PrintTo(target, 8, [Symbol(open)] + PrintTo(body, 0, [Symbol(CloseBracket)] + rest))
  {
    hide PrintTo;
  }

  lemma {:induction false} CostOfMember(node: Node, rest: seq<Token>, depth: int)
    requires WellFormed(node) && (node.Property? || (node.Call? && node.receiver.Some?)) && !Starts(rest, OpenParen)
    requires depth + BareFrames(node) <= MAX_NESTING + 1
    ensures OfPostfix(BareTo(node, rest), depth).calls == Max(BareCalls(node) - 1, OfSuffixes(node, rest, depth).calls)
    decreases node, 0, 0, 1
  {
    hide OfPostfix, OfSuffixes, PrintTo, Frames, Calls, ItemsTo, ItemsCalls, ItemsFrames;
    if node.Property? {
      CostOfProperty(node.target, node.name, node.safe, rest, depth);
    } else {
      CostOfCall(node.receiver.value, node.name, node.arguments, node.safe, rest, depth);
    }
  }

  lemma PrimaryCost(tokens: seq<Token>, node: Node, rest: seq<Token>, depth: int)
    requires Primary(tokens, depth) == Ok(node, rest)
    ensures OfPostfix(tokens, depth) == Both(OfPrimary(tokens, depth), OfSuffixes(node, rest, depth))
  {
    hide Primary, OfPrimary, OfSuffixes;
  }

  lemma {:induction false} CostOfProperty(target: Node, name: string, safe: bool, rest: seq<Token>, depth: int)
    requires WellFormed(target) && !Starts(rest, OpenParen)
    requires depth + Frames(target, 8) <= MAX_NESTING + 1
    ensures OfPostfix(PrintTo(target, 8, [DotToken(safe), Identifier(name)] + rest), depth).calls
         == Max(Calls(target, 8) - 1, OfSuffixes(Property(target, name, safe), rest, depth).calls)
    decreases Property(target, name, safe), 0, 0, 0
  {
    hide PrintTo, WellFormed, Frames, OfPostfix, OfSuffixes, Calls;
    var tokens := [DotToken(safe), Identifier(name)] + rest;
    CostOfPostfix(target, tokens, depth);
    MemberCosts(target, tokens, depth);
    assert tokens[2..] == rest;
  }

  lemma {:induction false} CostOfCall(target: Node, name: string, arguments: seq<Node>, safe: bool,
                                      rest: seq<Token>, depth: int)
    requires WellFormed(target) && AllWellFormed(arguments)
    requires depth + Max(Frames(target, 8), 1 + ItemsFrames(arguments)) <= MAX_NESTING + 1
    ensures OfPostfix(PrintTo(target, 8, [DotToken(safe), Identifier(name), Symbol(OpenParen)] +
                                         ItemsTo(arguments, [Symbol(CloseParen)] + rest)), depth).calls
         == Max(Calls(target, 8) - 1,
                Max(ItemsCalls(arguments), OfSuffixes(Call(Some(target), name, arguments, safe), rest, depth).calls))
    decreases Call(Some(target), name, arguments, safe), 0, 0, 0
  {
    hide PrintTo, ItemsTo, WellFormed, AllWellFormed, Frames, ItemsFrames, OfPostfix, OfSuffixes, OfArguments, Calls,
      ItemsCalls, Arguments;
    var list := ItemsTo(arguments, [Symbol(CloseParen)] + rest);
    var tokens := [DotToken(safe), Identifier(name), Symbol(OpenParen)] + list;
    ParsesArguments(arguments, rest, depth);
    CostOfArguments(arguments, rest, depth);
    CostOfPostfix(target, tokens, depth);
    MemberCosts(target, tokens, depth);
    assert tokens[2..] == [Symbol(OpenParen)] + list && tokens[3..] == list;
  }

  lemma {:induction false} CostOfSuffix(target: Node, open: Punctuation, body: Node, rest: seq<Token>, depth: int)
    requires WellFormed(target) && WellFormed(body) && open in {OpenBracket, BangBracket, QuestionBracket}
    requires depth + Max(Frames(target, 8), 1 + Frames(body, 0)) <= MAX_NESTING + 1
    ensures OfPostfix(PrintTo(target, 8, [Symbol(open)] + PrintTo(body, 0, [Symbol(CloseBracket)] + rest)), depth).calls
         == Max(Calls(target, 8) - 1, Max(Calls(body, 0), OfSuffixes(WithBody(target, open, body), rest, depth).calls))
    decreases WithBody(target, open, body), 0, 0, 0, 0
  {
    hide PrintTo, WellFormed, Frames, OfPostfix, OfSuffixes, OfExpression, Calls, Bracketed;
    assert target < WithBody(target, open, body) && body < WithBody(target, open, body);
    var inner := PrintTo(body, 0, [Symbol(CloseBracket)] + rest);
    var tokens := [Symbol(open)] + inner;
    ParsesBracketed(body, rest, depth);
    CostOfExpression(body, 0, [Symbol(CloseBracket)] + rest, depth);
    CostOfPostfix(target, tokens, depth);
    BracketCosts(target, tokens, depth);
    assert tokens[1..] == inner;
  }

  lemma {:induction false} CostOfPrimary(node: Node, rest: seq<Token>, depth: int)
    requires WellFormed(node) && !Starts(rest, OpenParen)
    requires match node
             case Type(_) | Call(None, _, _, _) | ListLiteral(_) | MapLiteral(_) => true
             case _ => IsAtom(node)
    requires depth + BareFrames(node) <= MAX_NESTING + 1
    ensures OfPrimary(BareTo(node, rest), depth).calls == BareCalls(node) - 1
    decreases node, 0, 0, 0
  {
    hide OfArguments, OfEntries, OfExpression, OfItems, ItemsTo, EntriesTo, ItemsCalls, EntriesCalls, OfCollection,
      AllWellFormed, AllEntriesWellFormed, ItemsFrames, EntriesFrames, TypeNameTo;
    match node
    case Call(None, name, arguments, safe) =>
      var list := ItemsTo(arguments, [Symbol(CloseParen)] + rest);
      CostOfArguments(arguments, rest, depth);
      HelperCost(name, list, depth);
    case ListLiteral(items) =>
      var list := ItemsTo(items, [Symbol(CloseBrace)] + rest);
      CostOfList(items, rest, depth);
      BraceCost(list, depth);
    case MapLiteral(entries) =>
      var list := EntriesTo(entries, [Symbol(CloseBrace)] + rest);
      CostOfEntries(entries, rest, depth);
      EntriesStart(entries, [Symbol(CloseBrace)] + rest);
      BraceCost(list, depth);
      MapCost(list, depth);
    case _ =>
      LeafCost(node, rest, depth);
  }

  lemma HelperCost(name: string, list: seq<Token>, depth: int)
    requires !IsReserved(name) && name != "T"
    ensures OfPrimary([Identifier(name), Symbol(OpenParen)] + list, depth) == OfArguments(list, depth)
  {
    hide OfArguments;
    var tokens := [Identifier(name), Symbol(OpenParen)] + list;
    assert tokens[1..] == [Symbol(OpenParen)] + list && tokens[2..] == list;
  }

  lemma BraceCost(list: seq<Token>, depth: int)
    ensures OfPrimary([Symbol(OpenBrace)] + list, depth) == OfCollection(list, depth)
  {
    hide OfCollection;
    assert ([Symbol(OpenBrace)] + list)[1..] == list;
  }

  lemma MapCost(list: seq<Token>, depth: int)
    requires StartsEntry(list)
    ensures OfCollection(list, depth) == OfEntries(list, depth)
  {
    hide OfEntries;
  }

  lemma LeafCost(node: Node, rest: seq<Token>, depth: int)
    requires WellFormed(node) && !Starts(rest, OpenParen) && (IsAtom(node) || node.Type?)
    ensures OfPrimary(BareTo(node, rest), depth) == FREE && BareCalls(node) == 1
  {
    hide OfArguments, OfCollection, OfExpression, TypeNameTo;
    var tokens := BareTo(node, rest);
    assert IsAtom(node) ==> tokens[1..] == rest;
  }

  lemma {:induction false} CostOfUnary(node: Node, rest: seq<Token>, depth: int)
    requires WellFormed(node) && Pull(rest) < 8
    requires depth + Frames(node, 7) <= MAX_NESTING
    ensures OfUnary(PrintTo(node, 7, rest), depth).calls == Calls(node, 7) - 1
    decreases node, if Level(node) < 7 then 1 else 0, 1
  {
    hide OfUnary;
    if node.Unary? {
      CostOfPrefix(node.unary, node.operand, rest, depth);
    } else {
      CostOfOperand(node, rest, depth);
      assert PrintTo(node, 7, rest) == PrintTo(node, 8, rest);
    }
  }

  lemma {:induction false} CostOfOperand(node: Node, rest: seq<Token>, depth: int)
    requires WellFormed(node) && Pull(rest) < 8 && !node.Unary?
    requires depth + Frames(node, 7) <= MAX_NESTING
    ensures OfUnary(PrintTo(node, 8, rest), depth).calls == Calls(node, 8) - 1
    decreases node, if Level(node) < 7 then 1 else 0, 0, 3
  {
    hide PrintTo, WellFormed, Frames, Pull, OfUnary, OfPostfix, OfSuffixes, Calls;
    PostfixStart(node, rest);
    SamePrint(node);
    EndOfPostfix(rest);
    FramesArePositive(node);
    OperandCost(PrintTo(node, 8, rest), depth);
    CostOfPostfix(node, rest, depth + 1);
    NoSuffixes(node, rest, depth + 1);
  }

  lemma FramesArePositive(node: Node)
    ensures Frames(node, 7) >= 1
  {
  }

  lemma EndOfPostfix(rest: seq<Token>)
    requires Pull(rest) < 8
    ensures rest == [] || rest[0] !in {Symbol(OpenBracket), Symbol(BangBracket), Symbol(QuestionBracket)}
    ensures !Starts(rest, SafeDot) && !Starts(rest, Dot) && !Starts(rest, OpenParen)
  {
  }

  lemma OperandCost(tokens: seq<Token>, depth: int)
    requires depth < MAX_NESTING
    requires tokens != [] && tokens[0] !in {Symbol(Bang), Symbol(Minus), Identifier("not")}
    ensures OfUnary(tokens, depth) == InFrame(OfPostfix(tokens, depth + 1))
  {
    hide OfPostfix;
    assert OfOperand(tokens, depth + 1) == OfPostfix(tokens, depth + 1);
  }

  lemma {:induction false} CostOfPrefix(operator: UnaryOperator, operand: Node, rest: seq<Token>, depth: int)
    requires WellFormed(operand) && Pull(rest) < 8
    requires depth + BareFrames(Unary(operator, operand)) <= MAX_NESTING
    ensures OfUnary(BareTo(Unary(operator, operand), rest), depth).calls == Calls(operand, 7) - 1
    decreases Unary(operator, operand), 0, 0
  {
    hide PrintTo, WellFormed, Frames, Calls, OfUnary;
    CostOfUnary(operand, rest, depth + 1);
    PrefixCost(operator, PrintTo(operand, 7, rest), depth);
  }

  lemma PrefixCost(operator: UnaryOperator, tokens: seq<Token>, depth: int)
    requires depth < MAX_NESTING
    ensures OfUnary([Symbol(if operator.Not? then Bang else Minus)] + tokens, depth)
         == InFrame(OfUnary(tokens, depth + 1))
  {
    var all := [Symbol(if operator.Not? then Bang else Minus)] + tokens;
    assert all[1..] == tokens;
    assert OfOperand(all, depth + 1) == OfUnary(tokens, depth + 1);
  }

  lemma {:induction false} CostOfLeft(node: Node, printed: nat, minimum: nat, rest: seq<Token>, depth: int)
    requires WellFormed(node) && 1 <= printed <= 7 && minimum <= printed && Pull(rest) <= printed
    requires depth + Frames(node, printed) <= MAX_NESTING
    ensures OfExpression(PrintTo(node, printed, rest), depth, minimum).calls
         == Max(Calls(node, printed), 1 + OfTail(node, rest, depth, minimum).calls)
    decreases node, if Level(node) < printed then 1 else 0, 2
  {
    hide UnaryExpression, ExpressionTail, BareTo, WellFormed, BareFrames, BareCalls, OfUnary, OfTail;
    if printed <= Level(node) && node.Binary? {
      CostOfOperator(node, minimum, rest, depth);
    } else {
      assert PrintTo(node, printed, rest) == PrintTo(node, 7, rest);
      ParsesUnary(node, rest, depth);
      CostOfUnary(node, rest, depth);
    }
  }

  lemma {:induction false} CostOfOperator(node: Node, minimum: nat, rest: seq<Token>, depth: int)
    requires WellFormed(node) && node.Binary? && minimum <= Level(node) && Pull(rest) <= Level(node)
    requires depth + BareFrames(node) <= MAX_NESTING
    ensures OfExpression(BareTo(node, rest), depth, minimum).calls
         == Max(BareCalls(node), 1 + OfTail(node, rest, depth, minimum).calls)
    decreases node, 0, 1
  {
    hide Expression, PrintTo, Frames, OfExpression, OfTail, Calls, OperatorToken;
    var p := Precedence(node.binary);
    var after := PrintTo(node.right, p + 1, rest);
    OperatorPull(node.binary, after);
    CostOfLeft(node.left, p, minimum, [OperatorToken(node.binary)] + after, depth);
    ParsesExpression(node.right, p + 1, rest, depth);
    CostOfExpression(node.right, p + 1, rest, depth);
    OperatorCost(node.left, node.binary, after, depth, minimum);
  }

  lemma OperatorPull(operator: BinaryOperator, tokens: seq<Token>)
    ensures Pull([OperatorToken(operator)] + tokens) == Precedence(operator)
  {
  }

  lemma OperatorCost(left: Node, operator: BinaryOperator, tokens: seq<Token>, depth: int, minimum: nat)
    requires minimum <= Precedence(operator)
    requires Expression(tokens, depth, Precedence(operator) + 1).Ok?
    ensures var right := Expression(tokens, depth, Precedence(operator) + 1);
      OfTail(left, [OperatorToken(operator)] + tokens, depth, minimum)
        == Both(OfExpression(tokens, depth, Precedence(operator) + 1),
                OfTail(Binary(operator, left, right.value), right.rest, depth, minimum))
  {
    hide Expression, OfExpression, OfTail;
    var all := [OperatorToken(operator)] + tokens;
    assert PeekOperator(all) == Some(operator);
    assert all[1..] == tokens;
    TailCosts(left, all, depth, minimum);
  }

  lemma {:induction false} CostOfElvis(value: Node, fallback: Node, rest: seq<Token>, depth: int)
    requires WellFormed(value) && WellFormed(fallback) && Pull(rest) < 0
    requires depth + BareFrames(Elvis(value, fallback)) <= MAX_NESTING
    ensures OfExpression(BareTo(Elvis(value, fallback), rest), depth, 0).calls == BareCalls(Elvis(value, fallback))
    decreases Elvis(value, fallback), 0, 2
  {
    hide Expression, PrintTo, WellFormed, Frames, OfExpression, OfTail, Calls;
    var after := PrintTo(fallback, 0, rest);
    var tokens := [Symbol(Question2)] + after;
    CostOfLeft(value, 1, 0, tokens, depth);
    ParsesExpression(fallback, 0, rest, depth);
    CostOfExpression(fallback, 0, rest, depth);
    assert tokens[1..] == after;
    TailCosts(value, tokens, depth, 0);
    TailEnds(Elvis(value, fallback), rest, depth, 0);
  }

  lemma TailEnds(node: Node, rest: seq<Token>, depth: int, minimum: nat)
    requires Pull(rest) < minimum <= 7
    ensures OfTail(node, rest, depth, minimum) == FREE
  {
    hide Expression, OfExpression;
    assert PeekOperator(rest).Some? ==> Pull(rest) == Precedence(PeekOperator(rest).value);
  }

  lemma {:induction false} CostOfTernary(condition: Node, then_: Node, otherwise: Node, rest: seq<Token>, depth: int)
    requires WellFormed(condition) && WellFormed(then_) && WellFormed(otherwise) && Pull(rest) < 0
    requires depth + BareFrames(Ternary(condition, then_, otherwise)) <= MAX_NESTING
    ensures OfExpression(BareTo(Ternary(condition, then_, otherwise), rest), depth, 0).calls
         == BareCalls(Ternary(condition, then_, otherwise))
    decreases Ternary(condition, then_, otherwise), 0, 2
  {
    hide Expression, PrintTo, WellFormed, Frames, OfExpression, OfTail, OfOtherwise, Calls;
    var last := PrintTo(otherwise, 0, rest);
    var middle := PrintTo(then_, 0, [Symbol(Colon)] + last);
    var tokens := [Symbol(Question)] + middle;
    CostOfLeft(condition, 1, 0, tokens, depth);
    ParsesExpression(then_, 0, [Symbol(Colon)] + last, depth);
    CostOfExpression(then_, 0, [Symbol(Colon)] + last, depth);
    ParsesExpression(otherwise, 0, rest, depth);
    CostOfExpression(otherwise, 0, rest, depth);
    assert tokens[1..] == middle;
    TernaryCost(condition, tokens, then_, last, depth);
    TailEnds(Ternary(condition, then_, otherwise), rest, depth, 0);
  }

  lemma TernaryCost(condition: Node, tokens: seq<Token>, then_: Node, last: seq<Token>, depth: int)
    requires Starts(tokens, Question) && Expression(tokens[1..], depth, 0) == Ok(then_, [Symbol(Colon)] + last)
    requires Expression(last, depth, 0).Ok?
    ensures var otherwise := Expression(last, depth, 0);
      OfTail(condition, tokens, depth, 0)
        == Both(InChoice(OfExpression(tokens[1..], depth, 0)),
                Both(InChoice(OfExpression(last, depth, 0)),
                     OfTail(Ternary(condition, then_, otherwise.value), otherwise.rest, depth, 0)))
  {
    hide Expression, OfExpression, OfTail, OfOtherwise;
    assert ([Symbol(Colon)] + last)[1..] == last;
    TailCosts(condition, tokens, depth, 0);
    OtherwiseCost(condition, then_, last, depth);
  }

  lemma OtherwiseCost(condition: Node, then_: Node, tokens: seq<Token>, depth: int)
    requires Expression(tokens, depth, 0).Ok?
    ensures var otherwise := Expression(tokens, depth, 0);
      OfOtherwise(condition, then_, tokens, depth)
        == Both(InChoice(OfExpression(tokens, depth, 0)),
                OfTail(Ternary(condition, then_, otherwise.value), otherwise.rest, depth, 0))
  {
    hide Expression, OfExpression, OfTail;
  }

  /** A printed tree takes the calls of the tree, whatever follows that does not extend it. */
  lemma {:induction false} CostOfExpression(node: Node, minimum: nat, rest: seq<Token>, depth: int)
    requires WellFormed(node) && minimum <= 7 && Pull(rest) < minimum
    requires depth + Frames(node, minimum) <= MAX_NESTING
    ensures OfExpression(PrintTo(node, minimum, rest), depth, minimum).calls == Calls(node, minimum)
    decreases node, if Level(node) < minimum then 1 else 0, 3
  {
    hide Expression, BareTo, BareFrames, BareCalls, OfExpression, OfTail;
    if minimum == 0 && node.Elvis? {
      CostOfElvis(node.value, node.fallback, rest, depth);
    } else if minimum == 0 && node.Ternary? {
      CostOfTernary(node.condition, node.then_, node.otherwise, rest, depth);
    } else {
      CostOfLeft(node, Floor(minimum), minimum, rest, depth);
      TailEnds(node, rest, depth, minimum);
    }
  }
}
