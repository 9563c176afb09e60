/**
 What the parser accepts is in the grammar: whatever tree it builds is well formed, prints within the
 nesting the input was parsed with, and was read off a prefix of the tokens with balanced braces.
 */
module SpelNormalForm {
  import opened Naturals
  import opened Wrappers
  import opened SpelSyntax
  import opened SpelTokens
  import opened SpelGrammar
  import opened SpelPrinter

  /** Brace depth after reading `tokens` at depth `open`; None if a brace closes that was not opened. */
  function Braces(tokens: seq<Token>, open: nat): Option<nat> {
    if tokens == [] then Some(open)
    else if tokens[0] == Symbol(OpenBrace) then Braces(tokens[1..], open + 1)
    else if tokens[0] == Symbol(CloseBrace) then (if open == 0 then None else Braces(tokens[1..], open - 1))
    else Braces(tokens[1..], open)
  }

  /** `rest` is what remains of `tokens` after a prefix with balanced braces. */
  ghost predicate Consumed(tokens: seq<Token>, rest: seq<Token>) {
    && |rest| <= |tokens|
    && rest == tokens[|tokens| - |rest|..]
    && forall open: nat :: Braces(tokens, open) == Braces(rest, open)
  }

  lemma ConsumedTwice(tokens: seq<Token>, middle: seq<Token>, rest: seq<Token>)
    requires Consumed(tokens, middle) && Consumed(middle, rest)
    ensures Consumed(tokens, rest)
    ensures ValidTokens(tokens) ==> ValidTokens(rest)
  {
    var k := |tokens| - |middle|;
    assert tokens[|tokens| - |rest|..] == tokens[k..][|middle| - |rest|..];
  }

  lemma ConsumedValid(tokens: seq<Token>, rest: seq<Token>)
    requires ValidTokens(tokens) && Consumed(tokens, rest)
    ensures ValidTokens(rest)
  {
  }

  lemma ConsumedOne(tokens: seq<Token>)
    requires tokens != [] && tokens[0] !in {Symbol(OpenBrace), Symbol(CloseBrace)}
    ensures Consumed(tokens, tokens[1..])
  {
  }

  lemma ConsumedSome(tokens: seq<Token>, count: nat)
    requires count <= |tokens|
    requires forall i :: 0 <= i < count ==> tokens[i] !in {Symbol(OpenBrace), Symbol(CloseBrace)}
    ensures Consumed(tokens, tokens[count..])
    decreases count
  {
    if count > 0 {
      ConsumedOne(tokens);
      ConsumedSome(tokens[1..], count - 1);
      assert tokens[1..][count - 1..] == tokens[count..];
      ConsumedTwice(tokens, tokens[1..], tokens[count..]);
    }
  }

  /** A part between braces, whatever the depth. */
  lemma ConsumedBraces(tokens: seq<Token>, rest: seq<Token>)
    requires tokens != [] && tokens[0] == Symbol(OpenBrace)
    requires Consumed(tokens[1..], rest)
    requires Starts(rest, CloseBrace)
    ensures Consumed(tokens, rest[1..])
  {
    forall open: nat ensures Braces(tokens, open) == Braces(rest[1..], open) {
      assert Braces(tokens, open) == Braces(tokens[1..], open + 1);
    }
    var k := |tokens| - |rest|;
    assert rest == tokens[1..][k - 1..];
    assert rest[1..] == tokens[k + 1..];
  }

  /** The next token cannot extend an expression parsed with this minimum precedence. */
  predicate Stops(tokens: seq<Token>, minimum: nat) {
    && (PeekOperator(tokens).Some? ==> Precedence(PeekOperator(tokens).value) < Floor(minimum))
    && (minimum == 0 ==> !Starts(tokens, Question) && !Starts(tokens, Question2))
  }

  ghost predicate Sound(tokens: seq<Token>, depth: int, minimum: nat, r: Parsed<Node>) {
    r.Ok? ==>
      && Consumed(tokens, r.rest)
      && WellFormed(r.value)
      && depth + Frames(r.value, minimum) <= MAX_NESTING
      && Stops(r.rest, minimum)
  }

  /** As `Sound`, inside the `parse_unary` frame that `depth` already counts. */
  ghost predicate SoundInside(tokens: seq<Token>, depth: int, minimum: nat, r: Parsed<Node>) {
    r.Ok? ==>
      && Consumed(tokens, r.rest)
      && WellFormed(r.value)
      && depth + Frames(r.value, minimum) <= MAX_NESTING + 1
  }

  ghost predicate SoundItems(tokens: seq<Token>, depth: int, r: Parsed<seq<Node>>) {
    r.Ok? ==>
      && AllWellFormed(r.value)
      && depth + ItemsFrames(r.value) <= MAX_NESTING
  }

  lemma {:induction false} SoundExpression(tokens: seq<Token>, depth: int, minimum: nat)
    requires ValidTokens(tokens) && minimum <= 7
    ensures Sound(tokens, depth, minimum, Expression(tokens, depth, minimum))
    decreases |tokens|, 5
  {
    hide Consumed, ValidTokens, WellFormed, Frames, UnaryExpression, ExpressionTail;
    SoundUnary(tokens, depth);
    var left := UnaryExpression(tokens, depth);
    if left.Ok? {
      SoundTail(tokens, left.value, 7, left.rest, depth, minimum);
    }
  }

  /** `held` is how tightly `left` may be printed, given what can still follow it. */
  lemma {:induction false} SoundTail(all: seq<Token>, left: Node, held: nat, tokens: seq<Token>, depth: int,
    minimum: nat)
    requires ValidTokens(all) && Consumed(all, tokens) && minimum <= held <= 7
    requires WellFormed(left) && depth + Frames(left, held) <= MAX_NESTING
    requires held < 7 ==> Stops(tokens, held + 1)
    requires held == 0 ==> Stops(tokens, 0)
    ensures Sound(all, depth, minimum, ExpressionTail(left, tokens, depth, minimum))
    decreases |tokens|, 4
  {
    hide Consumed, ValidTokens, WellFormed, Expression, ExpressionTail, TernaryTail, Frames, Stops, OperatorOf;
    TailUnfolds(left, tokens, depth, minimum);
    HeldIsEnough(left, held, tokens, depth, minimum);
    if minimum == 0 && Starts(tokens, Question2) {
      SoundElvis(all, left, tokens, depth);
    } else if minimum == 0 && Starts(tokens, Question) {
      SoundTernary(all, left, tokens, depth);
    } else if PeekOperator(tokens).Some? && Precedence(PeekOperator(tokens).value) >= Floor(minimum) {
      SoundOperator(all, left, tokens, depth, minimum);
    }
  }

  /** The tree on the left was read with the operators that come next in mind. */
  lemma HeldIsEnough(left: Node, held: nat, tokens: seq<Token>, depth: int, minimum: nat)
    requires depth + Frames(left, held) <= MAX_NESTING && minimum <= held <= 7
    requires held < 7 ==> Stops(tokens, held + 1)
    requires held == 0 ==> Stops(tokens, 0)
    ensures var operator := PeekOperator(tokens);
      if minimum == 0 && (Starts(tokens, Question) || Starts(tokens, Question2)) then
        depth + Frames(left, 1) <= MAX_NESTING
      else if operator.Some? && Precedence(operator.value) >= Floor(minimum) then
        depth + Frames(left, Precedence(operator.value)) <= MAX_NESTING
      else depth + Frames(left, minimum) <= MAX_NESTING && Stops(tokens, minimum)
  {
    hide BareFrames, OperatorOf;
  }

  lemma {:induction false} SoundElvis(all: seq<Token>, left: Node, tokens: seq<Token>, depth: int)
    requires ValidTokens(all) && Consumed(all, tokens) && Starts(tokens, Question2)
    requires WellFormed(left) && depth + Frames(left, 1) <= MAX_NESTING
    ensures Sound(all, depth, 0, ExpressionTail(left, tokens, depth, 0))
    decreases |tokens|, 3
  {
    hide Consumed, ValidTokens, Expression, ExpressionTail, WellFormed, Frames;
    TailUnfolds(left, tokens, depth, 0);
    ConsumedOne(tokens);
    ConsumedTwice(all, tokens, tokens[1..]);
    SoundExpression(tokens[1..], depth, 0);
    var fallback := Expression(tokens[1..], depth, 0);
    if fallback.Ok? {
      ConsumedTwice(all, tokens[1..], fallback.rest);
      ElvisTree(left, fallback.value);
      SoundTail(all, Elvis(left, fallback.value), 0, fallback.rest, depth, 0);
    }
  }

  lemma {:induction false} SoundTernary(all: seq<Token>, left: Node, tokens: seq<Token>, depth: int)
    requires ValidTokens(all) && Consumed(all, tokens) && Starts(tokens, Question)
    requires WellFormed(left) && depth + Frames(left, 1) <= MAX_NESTING
    ensures Sound(all, depth, 0, ExpressionTail(left, tokens, depth, 0))
    decreases |tokens|, 3
  {
    hide Consumed, ValidTokens, Expression, ExpressionTail, WellFormed, Frames;
    TailUnfolds(left, tokens, depth, 0);
    ConsumedOne(tokens);
    ConsumedTwice(all, tokens, tokens[1..]);
    SoundExpression(tokens[1..], depth, 0);
    var then_ := Expression(tokens[1..], depth, 0);
    if then_.Ok? && Starts(then_.rest, Colon) {
      var last := then_.rest[1..];
      ConsumedTwice(all, tokens[1..], then_.rest);
      ConsumedOne(then_.rest);
      ConsumedTwice(all, then_.rest, last);
      SoundExpression(last, depth, 0);
      var otherwise := Expression(last, depth, 0);
      if otherwise.Ok? {
        ConsumedTwice(all, last, otherwise.rest);
        TernaryTree(left, then_.value, otherwise.value);
        SoundTail(all, Ternary(left, then_.value, otherwise.value), 0, otherwise.rest, depth, 0);
      }
    }
  }

  lemma {:induction false} SoundOperator(all: seq<Token>, left: Node, tokens: seq<Token>, depth: int, minimum: nat)
    requires ValidTokens(all) && Consumed(all, tokens) && minimum <= 7
    requires PeekOperator(tokens).Some? && Precedence(PeekOperator(tokens).value) >= Floor(minimum)
    requires !(minimum == 0 && (Starts(tokens, Question) || Starts(tokens, Question2)))
    requires WellFormed(left) && depth + Frames(left, Precedence(PeekOperator(tokens).value)) <= MAX_NESTING
    ensures Sound(all, depth, minimum, ExpressionTail(left, tokens, depth, minimum))
    decreases |tokens|, 3
  {
    hide Consumed, ValidTokens, Expression, ExpressionTail, WellFormed, Frames;
    TailUnfolds(left, tokens, depth, minimum);
    var operator := PeekOperator(tokens).value;
    var p := Precedence(operator);
    ConsumedOne(tokens);
    ConsumedTwice(all, tokens, tokens[1..]);
    SoundExpression(tokens[1..], depth, p + 1);
    var right := Expression(tokens[1..], depth, p + 1);
    if right.Ok? {
      ConsumedTwice(all, tokens[1..], right.rest);
      OperatorTree(left, operator, right.value);
      SoundTail(all, Binary(operator, left, right.value), p, right.rest, depth, minimum);
    }
  }

  lemma {:induction false} ElvisTree(value: Node, fallback: Node)
    requires WellFormed(value) && WellFormed(fallback)
    ensures WellFormed(Elvis(value, fallback))
    ensures Frames(Elvis(value, fallback), 0) == Max(Frames(value, 1), Frames(fallback, 0))
  {
  }

  lemma {:induction false} TernaryTree(condition: Node, then_: Node, otherwise: Node)
    requires WellFormed(condition) && WellFormed(then_) && WellFormed(otherwise)
    ensures WellFormed(Ternary(condition, then_, otherwise))
    ensures Frames(Ternary(condition, then_, otherwise), 0)
         == Max(Frames(condition, 1), Max(Frames(then_, 0), Frames(otherwise, 0)))
  {
  }

  lemma {:induction false} SuffixTree(target: Node, body: Node, tree: Node)
    requires WellFormed(target) && WellFormed(body)
    requires tree in {Index(target, body), Projection(target, body), Selection(target, body)}
    ensures WellFormed(tree)
    ensures Frames(tree, 8) == Max(Frames(target, 8), 1 + Frames(body, 0))
  {
  }

  lemma {:induction false} CallTree(target: Node, name: string, arguments: seq<Node>, safe: bool)
    requires WellFormed(target) && IsName(name) && AllWellFormed(arguments)
    ensures WellFormed(Call(Some(target), name, arguments, safe))
    ensures Frames(Call(Some(target), name, arguments, safe), 8) == Max(Frames(target, 8), 1 + ItemsFrames(arguments))
  {
    hide AllWellFormed, ItemsFrames, IsName, IsFloat, IsTypeName, AllEntriesWellFormed, EntriesFrames, IsReserved;
  }

  lemma {:induction false} HelperTree(name: string, arguments: seq<Node>)
    requires IsName(name) && !IsReserved(name) && name != "T" && AllWellFormed(arguments)
    ensures WellFormed(Call(None, name, arguments, false))
    ensures Frames(Call(None, name, arguments, false), 8) == 1 + ItemsFrames(arguments)
  {
  }

  lemma {:induction false} PropertyTree(target: Node, name: string, safe: bool)
    requires WellFormed(target) && IsName(name)
    ensures WellFormed(Property(target, name, safe))
    ensures Frames(Property(target, name, safe), 8) == Frames(target, 8)
  {
  }

  lemma {:induction false} NameTree(name: string)
    ensures IsName(name) && !IsReserved(name) ==> WellFormed(Root(name))
    ensures WellFormed(Null) && WellFormed(Bool(true)) && WellFormed(Bool(false))
    ensures forall node :: node in {Root(name), Null, Bool(true), Bool(false)} ==> Frames(node, 8) == 1
  {
  }

  lemma {:induction false} UnaryTree(operator: UnaryOperator, operand: Node)
    requires WellFormed(operand)
    ensures WellFormed(Unary(operator, operand))
    ensures Frames(Unary(operator, operand), 7) == 1 + Frames(operand, 7)
  {
  }

  lemma {:induction false} TypeTree(name: string)
    requires IsTypeName(name)
    ensures WellFormed(Type(name)) && Frames(Type(name), 8) == 1
  {
  }

  lemma {:induction false} CollectionTrees(items: seq<Node>, entries: seq<Entry>)
    requires AllWellFormed(items) && AllEntriesWellFormed(entries)
    ensures WellFormed(ListLiteral(items)) && Frames(ListLiteral(items), 8) == 1 + ItemsFrames(items)
    ensures entries != [] ==> WellFormed(MapLiteral(entries))
    ensures Frames(MapLiteral(entries), 8) == 1 + EntriesFrames(entries)
  {
  }

  lemma {:induction false} ItemsTree(first: Node, others: seq<Node>)
    requires WellFormed(first) && AllWellFormed(others)
    ensures AllWellFormed([first] + others)
    ensures ItemsFrames([first] + others) == Max(Frames(first, 0), ItemsFrames(others))
  {
    assert ([first] + others)[1..] == others;
  }

  lemma {:induction false} EntriesTree(first: Entry, others: seq<Entry>)
    requires WellFormed(first.value) && AllEntriesWellFormed(others)
    ensures AllEntriesWellFormed([first] + others)
    ensures EntriesFrames([first] + others) == Max(Frames(first.value, 0), EntriesFrames(others))
  {
    assert ([first] + others)[1..] == others;
  }

  lemma {:induction false} OperatorTree(left: Node, operator: BinaryOperator, right: Node)
    requires WellFormed(left) && WellFormed(right)
    ensures WellFormed(Binary(operator, left, right))
    ensures Frames(Binary(operator, left, right), Precedence(operator))
         == Max(Frames(left, Precedence(operator)), Frames(right, Precedence(operator) + 1))
  {
  }

  lemma {:induction false} SoundUnary(tokens: seq<Token>, depth: int)
    requires ValidTokens(tokens)
    ensures SoundInside(tokens, depth + 1, 7, UnaryExpression(tokens, depth))
    decreases |tokens|, 4
  {
    hide Consumed, ValidTokens, WellFormed, UnaryOperand, Frames;
    if depth < MAX_NESTING {
      SoundOperand(tokens, depth + 1);
    }
  }

  lemma {:induction false} SoundOperand(tokens: seq<Token>, depth: int)
    requires ValidTokens(tokens) && depth <= MAX_NESTING
    ensures SoundInside(tokens, depth, 7, UnaryOperand(tokens, depth))
    decreases |tokens|, 3
  {
    hide Consumed, ValidTokens, UnaryExpression, Postfix, WellFormed, BareFrames;
    if tokens != [] && tokens[0] in {Symbol(Bang), Symbol(Minus), Identifier("not")} {
      ConsumedOne(tokens);
      ConsumedValid(tokens, tokens[1..]);
      SoundUnary(tokens[1..], depth);
      var operand := UnaryExpression(tokens[1..], depth);
      if operand.Ok? {
        ConsumedTwice(tokens, tokens[1..], operand.rest);
        UnaryTree(if Starts(tokens, Minus) then Negate else Not, operand.value);
      }
    } else {
      SoundPostfix(tokens, depth);
    }
  }

  lemma {:induction false} SoundPostfix(tokens: seq<Token>, depth: int)
    requires ValidTokens(tokens) && depth <= MAX_NESTING
    requires tokens == [] || tokens[0] != Identifier("not")
    ensures SoundInside(tokens, depth, 8, Postfix(tokens, depth))
    decreases |tokens|, 2
  {
    hide Consumed, ValidTokens, WellFormed, Primary, PostfixTail;
    SoundPrimary(tokens, depth);
    var primary := Primary(tokens, depth);
    if primary.Ok? {
      SoundPostfixTail(tokens, primary.value, primary.rest, depth);
    }
  }

  lemma {:induction false} SoundBracketed(tokens: seq<Token>, depth: int)
    requires ValidTokens(tokens)
    ensures var r := Bracketed(tokens, depth);
            r.Ok? ==> Consumed(tokens, r.rest) && WellFormed(r.value) && depth + Frames(r.value, 0) <= MAX_NESTING
    decreases |tokens|, 6
  {
    hide Consumed, ValidTokens, WellFormed, Expression, Frames;
    SoundExpression(tokens, depth, 0);
    var inner := Expression(tokens, depth, 0);
    if inner.Ok? && Starts(inner.rest, CloseBracket) {
      ConsumedOne(inner.rest);
      ConsumedTwice(tokens, inner.rest, inner.rest[1..]);
    }
  }

  lemma {:induction false} SoundPostfixTail(all: seq<Token>, node: Node, tokens: seq<Token>, depth: int)
    requires ValidTokens(all) && Consumed(all, tokens)
    requires WellFormed(node) && depth + Frames(node, 8) <= MAX_NESTING + 1
    ensures SoundInside(all, depth, 8, PostfixTail(node, tokens, depth))
    decreases |tokens|, 1
  {
    hide Consumed, WellFormed, Expression, BareFrames, Arguments, Bracketed;
    ConsumedValid(all, tokens);
    if Starts(tokens, BangBracket) || Starts(tokens, QuestionBracket) || Starts(tokens, OpenBracket) {
      SoundSuffix(all, node, tokens, depth);
    } else if (Starts(tokens, Dot) || Starts(tokens, SafeDot)) && |tokens| >= 2 && tokens[1].Identifier? {
      SoundMember(all, node, tokens, depth);
    }
  }

  lemma {:induction false} SoundSuffix(all: seq<Token>, node: Node, tokens: seq<Token>, depth: int)
    requires ValidTokens(all) && Consumed(all, tokens) && ValidTokens(tokens)
    requires Starts(tokens, BangBracket) || Starts(tokens, QuestionBracket) || Starts(tokens, OpenBracket)
    requires WellFormed(node) && depth + Frames(node, 8) <= MAX_NESTING + 1
    ensures SoundInside(all, depth, 8, PostfixTail(node, tokens, depth))
    decreases |tokens|, 0
  {
    hide Consumed, ValidTokens, Bracketed, WellFormed, Frames;
    ConsumedOne(tokens);
    ConsumedTwice(all, tokens, tokens[1..]);
    SoundBracketed(tokens[1..], depth);
    var body := Bracketed(tokens[1..], depth);
    if body.Ok? {
      ConsumedTwice(all, tokens[1..], body.rest);
      var next := if Starts(tokens, BangBracket) then Projection(node, body.value)
                  else if Starts(tokens, QuestionBracket) then Selection(node, body.value)
                  else Index(node, body.value);
      SuffixTree(node, body.value, next);
      SoundPostfixTail(all, next, body.rest, depth);
    }
  }

  lemma {:induction false} SoundMember(all: seq<Token>, node: Node, tokens: seq<Token>, depth: int)
    requires ValidTokens(all) && Consumed(all, tokens) && ValidTokens(tokens)
    requires (Starts(tokens, Dot) || Starts(tokens, SafeDot)) && |tokens| >= 2 && tokens[1].Identifier?
    requires WellFormed(node) && depth + Frames(node, 8) <= MAX_NESTING + 1
    ensures SoundInside(all, depth, 8, PostfixTail(node, tokens, depth))
    decreases |tokens|, 0
  {
    hide Consumed, Arguments, WellFormed, Frames;
    var safe := Starts(tokens, SafeDot);
    var name := tokens[1].name;
    ConsumedSome(tokens, 2);
    ConsumedTwice(all, tokens, tokens[2..]);
    assert ValidToken(tokens[1]);
    if Starts(tokens[2..], OpenParen) {
      ConsumedSome(tokens, 3);
      ConsumedTwice(all, tokens, tokens[3..]);
      SoundArguments(tokens[3..], depth);
      var arguments := Arguments(tokens[3..], depth);
      if arguments.Ok? {
        ConsumedTwice(all, tokens[3..], arguments.rest);
        CallTree(node, name, arguments.value, safe);
        SoundPostfixTail(all, Call(Some(node), name, arguments.value, safe), arguments.rest, depth);
      }
    } else {
      PropertyTree(node, name, safe);
      SoundPostfixTail(all, Property(node, name, safe), tokens[2..], depth);
    }
  }

  lemma {:induction false} SoundArguments(tokens: seq<Token>, depth: int)
    requires ValidTokens(tokens) && depth <= MAX_NESTING
    ensures var r := Arguments(tokens, depth);
            SoundItems(tokens, depth, r) && (r.Ok? ==> Consumed(tokens, r.rest))
    decreases |tokens|, 7
  {
    hide Consumed, ValidTokens, Items;
    if Starts(tokens, CloseParen) {
      ConsumedOne(tokens);
    } else {
      SoundItemList(tokens, depth, CloseParen);
      var r := Items(tokens, depth, CloseParen);
      if r.Ok? {
        var closing :| Consumed(tokens, closing) && Starts(closing, CloseParen) && r.rest == closing[1..];
        ConsumedOne(closing);
        ConsumedTwice(tokens, closing, r.rest);
      }
    }
  }

  lemma {:induction false} SoundItemList(tokens: seq<Token>, depth: int, close: Punctuation)
    requires ValidTokens(tokens)
    ensures var r := Items(tokens, depth, close);
            SoundItems(tokens, depth, r) &&
            (r.Ok? ==> exists closing :: Consumed(tokens, closing) && Starts(closing, close) && r.rest == closing[1..])
    decreases |tokens|, 6
  {
    hide Consumed, ValidTokens, Expression, WellFormed, Frames;
    SoundExpression(tokens, depth, 0);
    var first := Expression(tokens, depth, 0);
    if first.Ok? && Starts(first.rest, Comma) {
      var next := first.rest[1..];
      ConsumedOne(first.rest);
      ConsumedTwice(tokens, first.rest, next);
      SoundItemList(next, depth, close);
      var others := Items(next, depth, close);
      if others.Ok? {
        var closing :| Consumed(next, closing) && Starts(closing, close) && others.rest == closing[1..];
        ConsumedTwice(tokens, next, closing);
        ItemsTree(first.value, others.value);
      }
    } else if first.Ok? {
      ItemsTree(first.value, []);
      assert [first.value] + [] == [first.value];
    }
  }

  lemma {:induction false} SoundEntryList(tokens: seq<Token>, depth: int)
    requires ValidTokens(tokens)
    ensures var r := Entries(tokens, depth);
            r.Ok? ==>
              && r.value != [] && AllEntriesWellFormed(r.value) && depth + EntriesFrames(r.value) <= MAX_NESTING
              && exists closing :: Consumed(tokens, closing) && Starts(closing, CloseBrace) && r.rest == closing[1..]
    decreases |tokens|, 6
  {
    hide Consumed, ValidTokens, Expression, WellFormed, Frames, Entries;
    EntriesUnfold(tokens, depth);
    if StartsEntry(tokens) {
      ConsumedSome(tokens, 2);
      ConsumedValid(tokens, tokens[2..]);
      SoundExpression(tokens[2..], depth, 0);
      var value := Expression(tokens[2..], depth, 0);
      if value.Ok? {
        ConsumedTwice(tokens, tokens[2..], value.rest);
        if Starts(value.rest, Comma) {
          var next := value.rest[1..];
          ConsumedOne(value.rest);
          ConsumedTwice(tokens, value.rest, next);
          SoundEntryList(next, depth);
          var others := Entries(next, depth);
          if others.Ok? {
            var closing :| Consumed(next, closing) && Starts(closing, CloseBrace) && others.rest == closing[1..];
            ConsumedTwice(tokens, next, closing);
            EntriesTree(Entry(MapKey(tokens).value, value.value), others.value);
          }
        } else {
          EntriesTree(Entry(MapKey(tokens).value, value.value), []);
          assert [Entry(MapKey(tokens).value, value.value)] + [] == [Entry(MapKey(tokens).value, value.value)];
        }
      }
    }
  }

  lemma {:induction false} SoundPrimary(tokens: seq<Token>, depth: int)
    requires ValidTokens(tokens) && depth <= MAX_NESTING
    requires tokens == [] || tokens[0] != Identifier("not")
    ensures SoundInside(tokens, depth, 8, Primary(tokens, depth))
    decreases |tokens|, 1
  {
    hide Consumed, Expression, InlineCollection;
    if tokens == [] {
      return;
    }
    assert ValidToken(tokens[0]);
    match tokens[0]
    case Symbol(OpenParen) =>
      SoundGroup(tokens, depth);
    case Symbol(OpenBrace) =>
      SoundCollection(tokens, depth);
    case Symbol(_) =>
    case Identifier(name) =>
      ConsumedOne(tokens);
      SoundNamed(tokens, depth);
    case _ =>
      SoundLiteral(tokens, depth);
  }

  lemma SoundLiteral(tokens: seq<Token>, depth: int)
    requires tokens != [] && ValidToken(tokens[0]) && !tokens[0].Symbol? && !tokens[0].Identifier?
    requires depth <= MAX_NESTING
    ensures SoundInside(tokens, depth, 8, Primary(tokens, depth))
  {
    ConsumedOne(tokens);
    var node := Primary(tokens, depth).value;
    assert BareFrames(node) == 1 && Level(node) == 8;
  }

  lemma {:induction false} SoundGroup(tokens: seq<Token>, depth: int)
    requires ValidTokens(tokens) && Starts(tokens, OpenParen)
    ensures SoundInside(tokens, depth, 8, Primary(tokens, depth))
    decreases |tokens|, 0
  {
    hide Consumed, ValidTokens, WellFormed, Expression;
    ConsumedOne(tokens);
    ConsumedValid(tokens, tokens[1..]);
    SoundExpression(tokens[1..], depth, 0);
    var inner := Expression(tokens[1..], depth, 0);
    if inner.Ok? && Starts(inner.rest, CloseParen) {
      ConsumedOne(inner.rest);
      ConsumedTwice(tokens, tokens[1..], inner.rest);
      ConsumedTwice(tokens, inner.rest, inner.rest[1..]);
    }
  }

  lemma {:induction false} SoundCollection(tokens: seq<Token>, depth: int)
    requires ValidTokens(tokens) && Starts(tokens, OpenBrace) && depth <= MAX_NESTING
    ensures SoundInside(tokens, depth, 8, Primary(tokens, depth))
    decreases |tokens|, 0
  {
    hide Consumed, Items, Entries, WellFormed, Frames;
    var inside := tokens[1..];
    assert ValidTokens(inside);
    var r := InlineCollection(inside, depth);
    assert Primary(tokens, depth) == r;
    if Starts(inside, CloseBrace) {
      ConsumedBraces(tokens, inside);
      CollectionTrees([], []);
    } else if StartsEntry(inside) {
      SoundEntryList(inside, depth);
      var entries := Entries(inside, depth);
      if entries.Ok? {
        var closing :| Consumed(inside, closing) && Starts(closing, CloseBrace) && entries.rest == closing[1..];
        ConsumedBraces(tokens, closing);
        CollectionTrees([], entries.value);
      }
    } else {
      SoundItemList(inside, depth, CloseBrace);
      var items := Items(inside, depth, CloseBrace);
      if items.Ok? {
        var closing :| Consumed(inside, closing) && Starts(closing, CloseBrace) && items.rest == closing[1..];
        ConsumedBraces(tokens, closing);
        CollectionTrees(items.value, []);
      }
    }
  }

  lemma {:induction false} SoundNamed(tokens: seq<Token>, depth: int)
    requires ValidTokens(tokens) && depth <= MAX_NESTING
    requires tokens != [] && tokens[0].Identifier? && tokens[0].name != "not" && Consumed(tokens, tokens[1..])
    ensures SoundInside(tokens, depth, 8, Primary(tokens, depth))
    decreases |tokens|, 0
  {
    hide Consumed, Arguments, TypeName, WellFormed, Frames;
    var name, after := tokens[0].name, tokens[1..];
    var r := Named(name, after, depth);
    assert Primary(tokens, depth) == r;
    assert ValidToken(tokens[0]);
    if name == "true" || name == "false" || name == "null" || !Starts(after, OpenParen) {
      NameTree(name);
    } else if name != "new" {
      ConsumedOne(after);
      ConsumedTwice(tokens, after, after[1..]);
      if name == "T" {
        var typeName := TypeName(after[1..]);
        SoundTypeName(after[1..]);
        if typeName.Ok? && Starts(typeName.rest, CloseParen) {
          ConsumedTwice(tokens, after[1..], typeName.rest);
          ConsumedOne(typeName.rest);
          ConsumedTwice(tokens, typeName.rest, typeName.rest[1..]);
          TypeTree(typeName.value);
        }
      } else {
        SoundArguments(after[1..], depth);
        var arguments := Arguments(after[1..], depth);
        if arguments.Ok? {
          HelperTree(name, arguments.value);
          ConsumedTwice(tokens, after[1..], arguments.rest);
        }
      }
    }
  }

  lemma {:induction false} SoundTypeName(tokens: seq<Token>)
    requires ValidTokens(tokens)
    ensures var r := TypeName(tokens); r.Ok? ==> Consumed(tokens, r.rest) && IsTypeName(r.value)
    decreases |tokens|
  {
    if tokens != [] && tokens[0].Identifier? {
      assert ValidToken(tokens[0]);
      var part := tokens[0].name;
      if Starts(tokens[1..], Dot) {
        ConsumedSome(tokens, 2);
        ConsumedValid(tokens, tokens[2..]);
        SoundTypeName(tokens[2..]);
        var others := TypeName(tokens[2..]);
        if others.Ok? {
          ConsumedTwice(tokens, tokens[2..], others.rest);
          JoinTypeName(part, others.value);
        }
      } else {
        ConsumedOne(tokens);
        PartEndOf(part, "");
      }
    }
  }

  lemma {:induction false} PartEndOf(part: string, others: string)
    requires forall i :: 0 <= i < |part| ==> part[i] != '.'
    requires others == "" || others[0] == '.'
    ensures PartEnd(part + others) == |part|
  {
    if part != "" {
      assert (part + others)[1..] == part[1..] + others;
      PartEndOf(part[1..], others);
    } else {
      assert part + others == others;
    }
  }

  lemma JoinTypeName(part: string, others: string)
    requires IsName(part) && IsTypeName(others)
    ensures IsTypeName(part + "." + others)
  {
    var name := part + "." + others;
    assert name == part + ("." + others);
    PartEndOf(part, "." + others);
    assert name[..|part|] == part && name[|part| + 1..] == others;
  }
}
