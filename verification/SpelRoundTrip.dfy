/**
 Parsing what was printed gives the tree back: for every tree of the grammar that nests at most
 MAX_NESTING deep, whatever follows, as long as what follows does not continue the expression.
 */
module SpelRoundTrip {
  import opened Naturals
  import opened Wrappers
  import opened SpelSyntax
  import opened SpelTokens
  import opened SpelGrammar
  import opened SpelPrinter

  /** How tightly the next token would bind to an expression on its left; -1 if not at all. */
  function Pull(tokens: seq<Token>): (p: int)
    ensures -1 <= p <= 8
  {
    if tokens == [] then -1 else
    match tokens[0]
    case Symbol(SafeDot) | Symbol(Dot) | Symbol(BangBracket) | Symbol(QuestionBracket) => 8
    case Symbol(OpenBracket) | Symbol(OpenParen) => 8
    case Symbol(Question) | Symbol(Question2) => 0
    case token => if OperatorOf(token).Some? then Precedence(OperatorOf(token).value) else -1
  }

  /** A printed postfix expression never looks like a unary one. */
  lemma {:induction false} PostfixStart(node: Node, rest: seq<Token>)
    requires WellFormed(node)
    ensures var tokens := PrintTo(node, 8, rest);
            tokens != [] && tokens[0] !in {Symbol(Bang), Symbol(Minus), Identifier("not")}
    decreases node
  {
    if Level(node) == 8 {
      match node
      case Property(target, name, safe) =>
        PostfixStart(target, [DotToken(safe), Identifier(name)] + rest);
      case Index(target, index) =>
        PostfixStart(target, [Symbol(OpenBracket)] + PrintTo(index, 0, [Symbol(CloseBracket)] + rest));
      case Call(Some(target), name, arguments, safe) =>
        PostfixStart(target, [DotToken(safe), Identifier(name), Symbol(OpenParen)] +
                             ItemsTo(arguments, [Symbol(CloseParen)] + rest));
      case Projection(target, body) =>
        PostfixStart(target, [Symbol(BangBracket)] + PrintTo(body, 0, [Symbol(CloseBracket)] + rest));
      case Selection(target, body) =>
        PostfixStart(target, [Symbol(QuestionBracket)] + PrintTo(body, 0, [Symbol(CloseBracket)] + rest));
      case _ =>
    }
  }

  lemma {:induction false} ParsesTypeName(name: string, rest: seq<Token>)
    requires IsTypeName(name) && !Starts(rest, Dot)
    ensures TypeName(TypeNameTo(name, rest)) == Ok(name, rest)
    decreases |name|
  {
    hide TypeName, PartEnd, IsName;
    var k := PartEnd(name);
    if k < |name| {
      ParsesTypeName(name[k + 1..], rest);
      TypeNameStep(name[..k], TypeNameTo(name[k + 1..], rest), name[k + 1..], rest);
      NameParts(name, k);
    } else {
      LastTypeName(name, rest);
    }
  }

  lemma TypeNameStep(first: string, tokens: seq<Token>, others: string, rest: seq<Token>)
    requires TypeName(tokens) == Ok(others, rest)
    ensures TypeName([Identifier(first), Symbol(Dot)] + tokens) == Ok(first + "." + others, rest)
  {
    var all := [Identifier(first), Symbol(Dot)] + tokens;
    assert all[1..] == [Symbol(Dot)] + tokens && all[2..] == tokens;
  }

  lemma LastTypeName(name: string, rest: seq<Token>)
    requires !Starts(rest, Dot)
    ensures TypeName([Identifier(name)] + rest) == Ok(name, rest)
  {
    assert ([Identifier(name)] + rest)[1..] == rest;
  }

  lemma NameParts(name: string, k: nat)
    requires k < |name| && name[k] == '.'
    ensures name[..k] + "." + name[k + 1..] == name
  {
  }

  lemma ParsesBracketed(node: Node, rest: seq<Token>, depth: int)
    requires WellFormed(node) && depth + Frames(node, 0) <= MAX_NESTING
    ensures Bracketed(PrintTo(node, 0, [Symbol(CloseBracket)] + rest), depth) == Ok(node, rest)
    decreases node, 0, 4
  {
    hide Expression, PrintTo, WellFormed, Frames;
    ParsesExpression(node, 0, [Symbol(CloseBracket)] + rest, depth);
  }

  lemma {:induction false} ParsesItems(items: seq<Node>, close: Punctuation, rest: seq<Token>, depth: int)
    requires items != [] && AllWellFormed(items) && close in {CloseParen, CloseBrace}
    requires depth + ItemsFrames(items) <= MAX_NESTING
    ensures Items(ItemsTo(items, [Symbol(close)] + rest), depth, close) == Ok(items, rest)
    decreases items, 0, 0
  {
    hide Expression, PrintTo, WellFormed, Frames;
    var after := [Symbol(close)] + rest;
    if |items| == 1 {
      ParsesExpression(items[0], 0, after, depth);
      assert [items[0]] == items;
    } else {
      var others := [Symbol(Comma)] + ItemsTo(items[1..], after);
      ParsesExpression(items[0], 0, others, depth);
      ParsesItems(items[1..], close, rest, depth);
      assert [items[0]] + items[1..] == items;
    }
  }

  lemma {:induction false} ParsesEntries(entries: seq<Entry>, rest: seq<Token>, depth: int)
    requires entries != [] && AllEntriesWellFormed(entries)
    requires depth + EntriesFrames(entries) <= MAX_NESTING
    ensures Entries(EntriesTo(entries, [Symbol(CloseBrace)] + rest), depth) == Ok(entries, rest)
    decreases entries, 0, 0
  {
    hide Expression, Entries, PrintTo, WellFormed, Frames;
    var after := [Symbol(CloseBrace)] + rest;
    var key, value := entries[0].key, entries[0].value;
    if |entries| == 1 {
      ParsesExpression(value, 0, after, depth);
      LastEntry(key, value, PrintTo(value, 0, after), rest, depth);
      assert [entries[0]] == entries;
    } else {
      var others := EntriesTo(entries[1..], after);
      ParsesExpression(value, 0, [Symbol(Comma)] + others, depth);
      ParsesEntries(entries[1..], rest, depth);
      NextEntry(key, value, PrintTo(value, 0, [Symbol(Comma)] + others), others, entries[1..], rest, depth);
      assert [entries[0]] + entries[1..] == entries;
    }
  }

  lemma LastEntry(key: string, value: Node, tokens: seq<Token>, rest: seq<Token>, depth: int)
    requires Expression(tokens, depth, 0) == Ok(value, [Symbol(CloseBrace)] + rest)
    ensures Entries([Text(key), Symbol(Colon)] + tokens, depth) == Ok([Entry(key, value)], rest)
  {
    hide Expression;
    assert ([Text(key), Symbol(Colon)] + tokens)[2..] == tokens;
  }

  lemma NextEntry(key: string, value: Node, tokens: seq<Token>, others: seq<Token>,
                  entries: seq<Entry>, rest: seq<Token>, depth: int)
    requires Expression(tokens, depth, 0) == Ok(value, [Symbol(Comma)] + others)
    requires Entries(others, depth) == Ok(entries, rest)
    ensures Entries([Text(key), Symbol(Colon)] + tokens, depth) == Ok([Entry(key, value)] + entries, rest)
  {
    hide Expression;
    assert ([Text(key), Symbol(Colon)] + tokens)[2..] == tokens;
    assert ([Symbol(Comma)] + others)[1..] == others;
  }

  lemma EntriesStart(entries: seq<Entry>, rest: seq<Token>)
    requires entries != []
    ensures StartsEntry(EntriesTo(entries, rest))
  {
  }

  /** An expression that starts with `key :` stops at the colon. */
  lemma KeyIsNoItem(tokens: seq<Token>, depth: int)
    requires StartsEntry(tokens)
    ensures var r := Expression(tokens, depth, 0); r.Ok? ==> r.rest == tokens[1..]
  {
    var rest := tokens[1..];
    assert rest[0] == Symbol(Colon);
    if depth < MAX_NESTING {
      if tokens[0] == Identifier("not") {
        NoPrimary(rest, depth + 1);
        NoPrimary(rest, depth);
        assert UnaryOperand(tokens, depth + 1).Err?;
      } else {
        OperandIsPostfix(tokens, depth);
        var r := Primary(tokens, depth + 1);
        assert r.Ok? ==> r.rest == rest by {
          if tokens[0].Identifier? {
            assert r == Named(tokens[0].name, rest, depth + 1);
          }
        }
        if r.Ok? {
          PostfixStops(r.value, rest, depth + 1);
          ExpressionStops(r.value, rest, depth, 0);
        }
      }
    }
  }

  /** No expression starts with a closing symbol or a colon. */
  lemma NoPrimary(tokens: seq<Token>, depth: int)
    requires tokens != [] && tokens[0] in {Symbol(Colon), Symbol(CloseParen), Symbol(CloseBrace)}
    ensures UnaryExpression(tokens, depth).Err? && Expression(tokens, depth, 0).Err?
  {
    if depth < MAX_NESTING {
      OperandIsPostfix(tokens, depth);
      assert Primary(tokens, depth + 1).Err?;
      assert Postfix(tokens, depth + 1).Err?;
    }
  }

  lemma OperandIsPostfix(tokens: seq<Token>, depth: int)
    requires depth < MAX_NESTING
    requires tokens == [] || tokens[0] !in {Symbol(Bang), Symbol(Minus), Identifier("not")}
    ensures UnaryExpression(tokens, depth) == Postfix(tokens, depth + 1)
  {
    assert UnaryOperand(tokens, depth + 1) == Postfix(tokens, depth + 1);
  }

  lemma PostfixStops(node: Node, rest: seq<Token>, depth: int)
    requires Pull(rest) < 8
    ensures PostfixTail(node, rest, depth) == Ok(node, rest)
  {
  }

  lemma ExpressionStops(node: Node, rest: seq<Token>, depth: int, minimum: nat)
    requires Pull(rest) < minimum <= 7
    ensures ExpressionTail(node, rest, depth, minimum) == Ok(node, rest)
  {
    assert PeekOperator(rest).Some? ==> Pull(rest) == Precedence(PeekOperator(rest).value);
  }

  /** A printed list does not start like what else its bracket may hold. */
  lemma ListStart(items: seq<Node>, close: Punctuation, rest: seq<Token>, depth: int)
    requires items != [] && AllWellFormed(items) && close in {CloseParen, CloseBrace}
    requires depth + ItemsFrames(items) <= MAX_NESTING
    ensures var tokens := ItemsTo(items, [Symbol(close)] + rest); !Starts(tokens, close) && !StartsEntry(tokens)
    decreases items, 0, 1
  {
    hide Expression, PrintTo, WellFormed, AllWellFormed, Frames, ItemsFrames;
    var tokens := ItemsTo(items, [Symbol(close)] + rest);
    ParsesItems(items, close, rest, depth);
    assert Expression(tokens, depth, 0).Ok?;
    if Starts(tokens, close) {
      NoPrimary(tokens, depth);
    }
    if StartsEntry(tokens) {
      KeyIsNoItem(tokens, depth);
    }
  }

  lemma ParsesList(items: seq<Node>, rest: seq<Token>, depth: int)
    requires AllWellFormed(items) && depth + ItemsFrames(items) <= MAX_NESTING
    ensures InlineCollection(ItemsTo(items, [Symbol(CloseBrace)] + rest), depth) == Ok(ListLiteral(items), rest)
    decreases items, 1
  {
    hide Items, Entries, ItemsTo, AllWellFormed, ItemsFrames;
    if items == [] {
      NoItems([Symbol(CloseBrace)] + rest);
    } else {
      ParsesItems(items, CloseBrace, rest, depth);
      ListStart(items, CloseBrace, rest, depth);
    }
  }

  lemma NoItems(rest: seq<Token>)
    ensures ItemsTo([], rest) == rest
  {
  }

  lemma ParsesArguments(items: seq<Node>, rest: seq<Token>, depth: int)
    requires AllWellFormed(items) && depth + ItemsFrames(items) <= MAX_NESTING
    ensures Arguments(ItemsTo(items, [Symbol(CloseParen)] + rest), depth) == Ok(items, rest)
    decreases items, 1
  {
    hide Items, ItemsTo, AllWellFormed, ItemsFrames;
    if items == [] {
      NoItems([Symbol(CloseParen)] + rest);
    } else {
      ParsesItems(items, CloseParen, rest, depth);
      ListStart(items, CloseParen, rest, depth);
    }
  }

  predicate IsAtom(node: Node) {
    match node
    case Null | Bool(_) | Int(_) | Float(_) | Str(_) | Root(_) | Variable(_) | Bean(_) => true
    case _ => false
  }

  lemma ParsesAtom(node: Node, rest: seq<Token>, depth: int)
    requires WellFormed(node) && IsAtom(node) && !Starts(rest, OpenParen)
    ensures Primary(BareTo(node, rest), depth) == Ok(node, rest)
  {
    var tokens := BareTo(node, rest);
    assert tokens[1..] == rest;
    if tokens[0].Identifier? {
      assert Primary(tokens, depth) == Named(tokens[0].name, rest, depth);
    }
  }

  lemma ParsesType(name: string, rest: seq<Token>, depth: int)
    requires IsTypeName(name)
    ensures Primary(BareTo(Type(name), rest), depth) == Ok(Type(name), rest)
  {
    hide Primary, TypeName, TypeNameTo;
    var list := TypeNameTo(name, [Symbol(CloseParen)] + rest);
    var tokens := [Identifier("T"), Symbol(OpenParen)] + list;
    ParsesTypeName(name, [Symbol(CloseParen)] + rest);
    assert tokens[1..][0] == tokens[1] && tokens[2..] == list;
    TypeUnfolds(tokens, depth);
  }

  lemma HelperStep(name: string, list: seq<Token>, depth: int)
    requires !IsReserved(name) && name != "T" && Arguments(list, depth).Ok?
    ensures var arguments := Arguments(list, depth);
            Primary([Identifier(name), Symbol(OpenParen)] + list, depth)
            == Ok(Call(None, name, arguments.value, false), arguments.rest)
  {
    hide Arguments;
    var tokens := [Identifier(name), Symbol(OpenParen)] + list;
    assert tokens[1..] == [Symbol(OpenParen)] + list;
    assert Primary(tokens, depth) == Named(name, tokens[1..], depth);
  }

  lemma {:induction false} ParsesPostfix(node: Node, rest: seq<Token>, depth: int)
    requires WellFormed(node) && !Starts(rest, OpenParen)
    requires depth + Frames(node, 8) <= MAX_NESTING + 1
    ensures Postfix(PrintTo(node, 8, rest), depth) == PostfixTail(node, rest, depth)
    decreases node, if Level(node) < 8 then 1 else 0, 0, 1
  {
    hide Postfix, PostfixTail, Primary;
    if Level(node) < 8 {
      ParsesGroup(node, rest, depth);
    } else if node.Index? || node.Projection? || node.Selection? {
      ParsesSuffixed(node, rest, depth);
    } else if node.Property? {
      ParsesProperty(node.target, node.name, node.safe, rest, depth);
    } else if node.Call? && node.receiver.Some? {
      ParsesCall(node.receiver.value, node.name, node.arguments, node.safe, rest, depth);
    } else {
      ParsesPrimary(node, rest, depth);
      PrimaryStep(BareTo(node, rest), node, rest, depth);
    }
  }

  lemma PrimaryStep(tokens: seq<Token>, node: Node, rest: seq<Token>, depth: int)
    requires Primary(tokens, depth) == Ok(node, rest)
    ensures Postfix(tokens, depth) == PostfixTail(node, rest, depth)
  {
    hide Primary, PostfixTail;
  }

  lemma {:induction false} ParsesSuffixed(node: Node, rest: seq<Token>, depth: int)
    requires WellFormed(node) && (node.Index? || node.Projection? || node.Selection?)
    requires depth + BareFrames(node) <= MAX_NESTING + 1
    ensures Postfix(BareTo(node, rest), depth) == PostfixTail(node, rest, depth)
    decreases node, 0, 0, 0, 1
  {
    hide Postfix, PostfixTail, PrintTo, Frames;
    if node.Index? {
      ParsesSuffix(node.target, OpenBracket, node.index, rest, depth);
    } else if node.Projection? {
      ParsesSuffix(node.target, BangBracket, node.body, rest, depth);
    } else {
      ParsesSuffix(node.target, QuestionBracket, node.body, rest, depth);
    }
  }

  lemma {:induction false} ParsesGroup(node: Node, rest: seq<Token>, depth: int)
    requires WellFormed(node) && Level(node) < 8 && depth + BareFrames(node) <= MAX_NESTING
    ensures Postfix(PrintTo(node, 8, rest), depth) == PostfixTail(node, rest, depth)
    decreases node, 1, 0, 0
  {
    hide Expression, Postfix, PostfixTail, BareTo, WellFormed, BareFrames;
    ParsesExpression(node, 0, [Symbol(CloseParen)] + rest, depth);
    GroupStep(BareTo(node, [Symbol(CloseParen)] + rest), node, rest, depth);
  }

  lemma {:induction false} ParsesProperty(target: Node, name: string, safe: bool, rest: seq<Token>, depth: int)
    requires WellFormed(target) && !Starts(rest, OpenParen)
    requires depth + Frames(target, 8) <= MAX_NESTING + 1
    ensures Postfix(PrintTo(target, 8, [DotToken(safe), Identifier(name)] + rest), depth)
         == PostfixTail(Property(target, name, safe), rest, depth)
    decreases Property(target, name, safe), 0, 0, 0
  {
    hide Postfix, PostfixTail, PrintTo, WellFormed, Frames;
    ParsesPostfix(target, [DotToken(safe), Identifier(name)] + rest, depth);
    PropertyStep(target, name, safe, rest, depth);
  }

  lemma {:induction false} ParsesCall(target: Node, name: string, arguments: seq<Node>, safe: bool,
                                      rest: seq<Token>, depth: int)
    requires WellFormed(target) && AllWellFormed(arguments)
    requires depth + Max(Frames(target, 8), 1 + ItemsFrames(arguments)) <= MAX_NESTING + 1
    ensures Postfix(PrintTo(target, 8, [DotToken(safe), Identifier(name), Symbol(OpenParen)] +
                                       ItemsTo(arguments, [Symbol(CloseParen)] + rest)), depth)
         == PostfixTail(Call(Some(target), name, arguments, safe), rest, depth)
    decreases Call(Some(target), name, arguments, safe), 0, 0, 0
  {
    hide Postfix, PostfixTail, Arguments, PrintTo, ItemsTo, WellFormed, AllWellFormed, Frames, ItemsFrames;
    var list := ItemsTo(arguments, [Symbol(CloseParen)] + rest);
    ParsesArguments(arguments, rest, depth);
    ParsesPostfix(target, [DotToken(safe), Identifier(name), Symbol(OpenParen)] + list, depth);
    CallStep(target, name, safe, list, depth);
  }

  lemma {:induction false} ParsesSuffix(target: Node, open: Punctuation, body: Node, rest: seq<Token>, depth: int)
    requires WellFormed(target) && WellFormed(body) && open in {OpenBracket, BangBracket, QuestionBracket}
    requires depth + Max(Frames(target, 8), 1 + Frames(body, 0)) <= MAX_NESTING + 1
    ensures Postfix(PrintTo(target, 8, [Symbol(open)] + PrintTo(body, 0, [Symbol(CloseBracket)] + rest)), depth)
         == PostfixTail(WithBody(target, open, body), rest, depth)
    decreases WithBody(target, open, body), 0, 0, 0, 0
  {
    hide Postfix, PostfixTail, Bracketed, PrintTo, WellFormed, Frames;
    assert target < WithBody(target, open, body) && body < WithBody(target, open, body);
    var inner := PrintTo(body, 0, [Symbol(CloseBracket)] + rest);
    ParsesBracketed(body, rest, depth);
    ParsesPostfix(target, [Symbol(open)] + inner, depth);
    SuffixStep(target, open, inner, depth);
  }

  lemma SuffixStep(target: Node, open: Punctuation, tokens: seq<Token>, depth: int)
    requires open in {OpenBracket, BangBracket, QuestionBracket} && Bracketed(tokens, depth).Ok?
    ensures var body := Bracketed(tokens, depth);
            PostfixTail(target, [Symbol(open)] + tokens, depth)
            == PostfixTail(WithBody(target, open, body.value), body.rest, depth)
  {
    hide Bracketed;
    assert ([Symbol(open)] + tokens)[1..] == tokens;
  }

  lemma {:induction false} ParsesPrimary(node: Node, rest: seq<Token>, depth: int)
    requires WellFormed(node) && !Starts(rest, OpenParen)
    requires match node
             case Type(_) | Call(None, _, _, _) | ListLiteral(_) | MapLiteral(_) => true
             case _ => IsAtom(node)
    requires depth + BareFrames(node) <= MAX_NESTING + 1
    ensures Primary(BareTo(node, rest), depth) == Ok(node, rest)
    decreases node, 0, 0, 0
  {
    hide Primary, Arguments, Entries;
    match node
    case Type(name) =>
      ParsesType(name, rest, depth);
    case Call(None, name, arguments, safe) =>
      ParsesArguments(arguments, rest, depth);
      HelperStep(name, ItemsTo(arguments, [Symbol(CloseParen)] + rest), depth);
    case ListLiteral(items) =>
      ParsesList(items, rest, depth);
      BraceStep(ItemsTo(items, [Symbol(CloseBrace)] + rest), depth);
    case MapLiteral(entries) =>
      var list := EntriesTo(entries, [Symbol(CloseBrace)] + rest);
      ParsesEntries(entries, rest, depth);
      assert InlineCollection(list, depth) == Ok(node, rest) by {
        EntriesStart(entries, [Symbol(CloseBrace)] + rest);
      }
      BraceStep(list, depth);
    case _ =>
      ParsesAtom(node, rest, depth);
  }

  lemma GroupStep(tokens: seq<Token>, node: Node, rest: seq<Token>, depth: int)
    requires Expression(tokens, depth, 0) == Ok(node, [Symbol(CloseParen)] + rest)
    ensures Postfix([Symbol(OpenParen)] + tokens, depth) == PostfixTail(node, rest, depth)
  {
    hide Expression, PostfixTail;
    assert ([Symbol(OpenParen)] + tokens)[1..] == tokens;
    assert ([Symbol(CloseParen)] + rest)[1..] == rest;
    assert Primary([Symbol(OpenParen)] + tokens, depth) == Ok(node, rest);
  }

  lemma BraceStep(tokens: seq<Token>, depth: int)
    ensures Primary([Symbol(OpenBrace)] + tokens, depth) == InlineCollection(tokens, depth)
  {
    assert ([Symbol(OpenBrace)] + tokens)[1..] == tokens;
  }

  lemma PropertyStep(target: Node, name: string, safe: bool, rest: seq<Token>, depth: int)
    requires !Starts(rest, OpenParen)
    ensures PostfixTail(target, [DotToken(safe), Identifier(name)] + rest, depth)
         == PostfixTail(Property(target, name, safe), rest, depth)
  {
    assert ([DotToken(safe), Identifier(name)] + rest)[2..] == rest;
  }

  lemma CallStep(target: Node, name: string, safe: bool, list: seq<Token>, depth: int)
    requires Arguments(list, depth).Ok?
    ensures var arguments := Arguments(list, depth);
            PostfixTail(target, [DotToken(safe), Identifier(name), Symbol(OpenParen)] + list, depth)
            == PostfixTail(Call(Some(target), name, arguments.value, safe), arguments.rest, depth)
  {
    hide Arguments;
    var tokens := [DotToken(safe), Identifier(name), Symbol(OpenParen)] + list;
    assert tokens[2..] == [Symbol(OpenParen)] + list && tokens[3..] == list;
  }

  lemma {:induction false} ParsesUnary(node: Node, rest: seq<Token>, depth: int)
    requires WellFormed(node) && Pull(rest) < 8
    requires depth + Frames(node, 7) <= MAX_NESTING
    ensures UnaryExpression(PrintTo(node, 7, rest), depth) == Ok(node, rest)
    decreases node, if Level(node) < 7 then 1 else 0, 1
  {
    hide UnaryExpression;
    if node.Unary? {
      ParsesPrefix(node.unary, node.operand, rest, depth);
    } else {
      ParsesOperand(node, rest, depth);
      assert PrintTo(node, 7, rest) == PrintTo(node, 8, rest);
    }
  }

  lemma {:induction false} ParsesOperand(node: Node, rest: seq<Token>, depth: int)
    requires WellFormed(node) && Pull(rest) < 8 && !node.Unary?
    requires depth + Frames(node, 7) <= MAX_NESTING
    ensures UnaryExpression(PrintTo(node, 8, rest), depth) == Ok(node, rest)
    decreases node, if Level(node) < 7 then 1 else 0, 0, 2
  {
    hide UnaryExpression, Postfix, PostfixTail, PrintTo, WellFormed;
    PostfixStart(node, rest);
    OperandIsPostfix(PrintTo(node, 8, rest), depth);
    SamePrint(node);
    ParsesPostfix(node, rest, depth + 1);
    PostfixStops(node, rest, depth + 1);
  }

  lemma SamePrint(node: Node)
    requires !node.Unary?
    ensures Level(node) < 7 <==> Level(node) < 8
    ensures Frames(node, 7) == Frames(node, 8)
  {
  }

  lemma {:induction false} ParsesPrefix(operator: UnaryOperator, operand: Node, rest: seq<Token>, depth: int)
    requires WellFormed(operand) && Pull(rest) < 8
    requires depth + BareFrames(Unary(operator, operand)) <= MAX_NESTING
    ensures UnaryExpression(BareTo(Unary(operator, operand), rest), depth) == Ok(Unary(operator, operand), rest)
    decreases Unary(operator, operand), 0, 0
  {
    hide UnaryExpression, PrintTo, WellFormed, Frames;
    ParsesUnary(operand, rest, depth + 1);
    PrefixStep(operator, PrintTo(operand, 7, rest), depth);
  }

  lemma PrefixStep(operator: UnaryOperator, tokens: seq<Token>, depth: int)
    requires depth < MAX_NESTING && UnaryExpression(tokens, depth + 1).Ok?
    ensures var operand := UnaryExpression(tokens, depth + 1);
            UnaryExpression([Symbol(if operator.Not? then Bang else Minus)] + tokens, depth)
            == Ok(Unary(operator, operand.value), operand.rest)
  {
    var all := [Symbol(if operator.Not? then Bang else Minus)] + tokens;
    assert all[1..] == tokens;
    assert UnaryOperand(all, depth + 1).Ok?;
  }

  /** The left operands: parsing up to the end of `node` leaves the loop with `node` in hand. */
  lemma {:induction false} ParsesLeft(node: Node, printed: nat, minimum: nat, rest: seq<Token>, depth: int)
    requires WellFormed(node) && 1 <= printed <= 7 && minimum <= printed && Pull(rest) <= printed
    requires depth + Frames(node, printed) <= MAX_NESTING
    ensures Expression(PrintTo(node, printed, rest), depth, minimum) == ExpressionTail(node, rest, depth, minimum)
    decreases node, if Level(node) < printed then 1 else 0, 2
  {
    hide ExpressionTail, UnaryExpression, BareTo, WellFormed, BareFrames;
    if printed <= Level(node) && node.Binary? {
      ParsesOperator(node, minimum, rest, depth);
    } else {
      assert PrintTo(node, printed, rest) == PrintTo(node, 7, rest);
      ParsesUnary(node, rest, depth);
    }
  }

  lemma {:induction false} ParsesOperator(node: Node, minimum: nat, rest: seq<Token>, depth: int)
    requires WellFormed(node) && node.Binary? && minimum <= Level(node) && Pull(rest) <= Level(node)
    requires depth + BareFrames(node) <= MAX_NESTING
    ensures Expression(BareTo(node, rest), depth, minimum) == ExpressionTail(node, rest, depth, minimum)
    decreases node, 0, 1
  {
    hide Expression, ExpressionTail, PrintTo, Frames;
    var p := Precedence(node.binary);
    var after := PrintTo(node.right, p + 1, rest);
    ParsesLeft(node.left, p, minimum, [OperatorToken(node.binary)] + after, depth);
    ParsesExpression(node.right, p + 1, rest, depth);
    OperatorStep(node.left, node.binary, after, depth, minimum);
  }

  lemma OperatorStep(left: Node, operator: BinaryOperator, tokens: seq<Token>, depth: int, minimum: nat)
    requires minimum <= Precedence(operator)
    requires Expression(tokens, depth, Precedence(operator) + 1).Ok?
    ensures var right := Expression(tokens, depth, Precedence(operator) + 1);
            ExpressionTail(left, [OperatorToken(operator)] + tokens, depth, minimum)
            == ExpressionTail(Binary(operator, left, right.value), right.rest, depth, minimum)
  {
    hide Expression;
    var all := [OperatorToken(operator)] + tokens;
    assert PeekOperator(all) == Some(operator);
    assert all[1..] == tokens;
  }

  lemma {:induction false} ParsesElvis(value: Node, fallback: Node, rest: seq<Token>, depth: int)
    requires WellFormed(value) && WellFormed(fallback) && Pull(rest) < 0
    requires depth + BareFrames(Elvis(value, fallback)) <= MAX_NESTING
    ensures Expression(BareTo(Elvis(value, fallback), rest), depth, 0) == Ok(Elvis(value, fallback), rest)
    decreases Elvis(value, fallback), 0, 2
  {
    hide Expression, ExpressionTail, PrintTo, WellFormed, Frames;
    var after := PrintTo(fallback, 0, rest);
    ParsesLeft(value, 1, 0, [Symbol(Question2)] + after, depth);
    ParsesExpression(fallback, 0, rest, depth);
    ElvisStep(value, after, depth);
    ExpressionStops(Elvis(value, fallback), rest, depth, 0);
  }

  lemma ElvisStep(value: Node, tokens: seq<Token>, depth: int)
    requires Expression(tokens, depth, 0).Ok?
    ensures var fallback := Expression(tokens, depth, 0);
            ExpressionTail(value, [Symbol(Question2)] + tokens, depth, 0)
            == ExpressionTail(Elvis(value, fallback.value), fallback.rest, depth, 0)
  {
    hide Expression;
    assert ([Symbol(Question2)] + tokens)[1..] == tokens;
  }

  lemma {:induction false} ParsesTernary(condition: Node, then_: Node, otherwise: Node, rest: seq<Token>, depth: int)
    requires WellFormed(condition) && WellFormed(then_) && WellFormed(otherwise) && Pull(rest) < 0
    requires depth + BareFrames(Ternary(condition, then_, otherwise)) <= MAX_NESTING
    ensures Expression(BareTo(Ternary(condition, then_, otherwise), rest), depth, 0)
         == Ok(Ternary(condition, then_, otherwise), rest)
    decreases Ternary(condition, then_, otherwise), 0, 2
  {
    hide Expression, ExpressionTail, PrintTo, WellFormed, Frames;
    var last := PrintTo(otherwise, 0, rest);
    var middle := PrintTo(then_, 0, [Symbol(Colon)] + last);
    ParsesLeft(condition, 1, 0, [Symbol(Question)] + middle, depth);
    ParsesExpression(then_, 0, [Symbol(Colon)] + last, depth);
    ParsesExpression(otherwise, 0, rest, depth);
    TernaryStep(condition, middle, then_, last, depth);
    ExpressionStops(Ternary(condition, then_, otherwise), rest, depth, 0);
  }

  lemma TernaryStep(condition: Node, tokens: seq<Token>, then_: Node, last: seq<Token>, depth: int)
    requires Expression(tokens, depth, 0) == Ok(then_, [Symbol(Colon)] + last)
    requires Expression(last, depth, 0).Ok?
    ensures var otherwise := Expression(last, depth, 0);
            ExpressionTail(condition, [Symbol(Question)] + tokens, depth, 0)
            == ExpressionTail(Ternary(condition, then_, otherwise.value), otherwise.rest, depth, 0)
  {
    hide Expression;
    assert ([Symbol(Question)] + tokens)[1..] == tokens && ([Symbol(Colon)] + last)[1..] == last;
  }

  lemma {:induction false} ParsesExpression(node: Node, minimum: nat, rest: seq<Token>, depth: int)
    requires WellFormed(node) && minimum <= 7 && Pull(rest) < minimum
    requires depth + Frames(node, minimum) <= MAX_NESTING
    ensures Expression(PrintTo(node, minimum, rest), depth, minimum) == Ok(node, rest)
    decreases node, if Level(node) < minimum then 1 else 0, 3
  {
    hide Expression, ExpressionTail, BareTo, BareFrames;
    if minimum == 0 && node.Elvis? {
      ParsesElvis(node.value, node.fallback, rest, depth);
    } else if minimum == 0 && node.Ternary? {
      ParsesTernary(node.condition, node.then_, node.otherwise, rest, depth);
    } else {
      ParsesLeft(node, Floor(minimum), minimum, rest, depth);
      ExpressionStops(node, rest, depth, minimum);
    }
  }
}
