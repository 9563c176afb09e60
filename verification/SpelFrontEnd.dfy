/**
 The front end as a whole, from text to tree: printing and parsing are inverse, every accepted
 expression has a normal form, and the template splitter delimits exactly the expressions that parse.
 */
module SpelFrontEnd {
  import opened Wrappers
  import opened Decimals
  import opened SpelSyntax
  import opened SpelTokens
  import opened SpelGrammar
  import opened SpelPrinter
  import opened SpelRoundTrip
  import opened SpelNormalForm
  import opened SpelLexer
  import opened SpelText
  import SpelTemplate

  /** `parse` on text. */
  function ParseText(expression: string): Parsed<Node> {
    match Lex(expression)
    case None => Err(Syntax)
    case Some(tokens) => Parse(tokens)
  }

  /* Printing gives tokens the lexer can produce. */

  lemma ValidOne(token: Token, rest: seq<Token>)
    requires ValidToken(token) && ValidTokens(rest)
    ensures ValidTokens([token] + rest)
  {
  }

  lemma ValidTwo(a: Token, b: Token, rest: seq<Token>)
    requires ValidToken(a) && ValidToken(b) && ValidTokens(rest)
    ensures ValidTokens([a, b] + rest)
  {
  }

  lemma ValidThree(a: Token, b: Token, c: Token, rest: seq<Token>)
    requires ValidToken(a) && ValidToken(b) && ValidToken(c) && ValidTokens(rest)
    ensures ValidTokens([a, b, c] + rest)
  {
  }

  lemma {:induction false} ValidTypeName(name: string, rest: seq<Token>)
    requires IsTypeName(name) && ValidTokens(rest)
    ensures ValidTokens(TypeNameTo(name, rest))
    decreases |name|
  {
    hide ValidTokens;
    var k := PartEnd(name);
    if k < |name| {
      ValidTypeName(name[k + 1..], rest);
      ValidTwo(Identifier(name[..k]), Symbol(Dot), TypeNameTo(name[k + 1..], rest));
    } else {
      assert name[..k] == name;
      ValidOne(Identifier(name), rest);
    }
  }

  lemma {:induction false} ValidPrint(node: Node, minimum: nat, rest: seq<Token>)
    requires WellFormed(node) && ValidTokens(rest)
    ensures ValidTokens(PrintTo(node, minimum, rest))
    decreases node, 1
  {
    hide ValidTokens, BareTo, WellFormed;
    if Level(node) < minimum {
      var close := [Symbol(CloseParen)] + rest;
      ValidOne(Symbol(CloseParen), rest);
      ValidBare(node, close);
      ValidOne(Symbol(OpenParen), BareTo(node, close));
    } else {
      ValidBare(node, rest);
    }
  }

  lemma {:induction false} ValidBare(node: Node, rest: seq<Token>)
    requires WellFormed(node) && ValidTokens(rest)
    ensures ValidTokens(BareTo(node, rest))
    decreases node, 0
  {
    hide ValidTokens, PrintTo;
    match node
    case Type(name) =>
      ValidOne(Symbol(CloseParen), rest);
      ValidTypeName(name, [Symbol(CloseParen)] + rest);
      assert ValidToken(Identifier("T"));
      ValidTwo(Identifier("T"), Symbol(OpenParen), TypeNameTo(name, [Symbol(CloseParen)] + rest));
    case Property(target, name, safe) =>
      ValidTwo(DotToken(safe), Identifier(name), rest);
      ValidPrint(target, 8, [DotToken(safe), Identifier(name)] + rest);
    case Index(target, index) => ValidSuffix(target, OpenBracket, index, rest);
    case Projection(target, body) => ValidSuffix(target, BangBracket, body, rest);
    case Selection(target, body) => ValidSuffix(target, QuestionBracket, body, rest);
    case Call(_, _, _, _) => ValidCall(node, rest);
    case Unary(_, _) | Binary(_, _, _) => ValidOperator(node, rest);
    case Ternary(_, _, _) | Elvis(_, _) => ValidChoice(node, rest);
    case ListLiteral(_) | MapLiteral(_) => ValidCollection(node, rest);
    case _ => ValidAtom(node, rest);
  }

  lemma {:induction false} ValidCall(node: Node, rest: seq<Token>)
    requires node.Call? && WellFormed(node) && ValidTokens(rest)
    ensures ValidTokens(BareTo(node, rest))
    decreases node, 0, 0
  {
    hide ValidTokens, PrintTo, ItemsTo;
    ValidOne(Symbol(CloseParen), rest);
    ValidItems(node.arguments, [Symbol(CloseParen)] + rest);
    var list := ItemsTo(node.arguments, [Symbol(CloseParen)] + rest);
    match node.receiver
    case Some(target) =>
      ValidThree(DotToken(node.safe), Identifier(node.name), Symbol(OpenParen), list);
      ValidPrint(target, 8, [DotToken(node.safe), Identifier(node.name), Symbol(OpenParen)] + list);
    case None =>
      ValidTwo(Identifier(node.name), Symbol(OpenParen), list);
  }

  lemma {:induction false} ValidOperator(node: Node, rest: seq<Token>)
    requires (node.Unary? || node.Binary?) && WellFormed(node) && ValidTokens(rest)
    ensures ValidTokens(BareTo(node, rest))
    decreases node, 0, 0
  {
    hide ValidTokens, PrintTo;
    match node
    case Unary(operator, operand) =>
      ValidPrint(operand, 7, rest);
      ValidOne(Symbol(if operator.Not? then Bang else Minus), PrintTo(operand, 7, rest));
    case Binary(operator, left, right) =>
      var p := Precedence(operator);
      ValidPrint(right, p + 1, rest);
      ValidOne(OperatorToken(operator), PrintTo(right, p + 1, rest));
      ValidPrint(left, p, [OperatorToken(operator)] + PrintTo(right, p + 1, rest));
  }

  lemma {:induction false} ValidChoice(node: Node, rest: seq<Token>)
    requires (node.Ternary? || node.Elvis?) && WellFormed(node) && ValidTokens(rest)
    ensures ValidTokens(BareTo(node, rest))
    decreases node, 0, 0
  {
    hide ValidTokens, PrintTo;
    match node
    case Ternary(condition, then_, otherwise) =>
      ValidPrint(otherwise, 0, rest);
      var last := [Symbol(Colon)] + PrintTo(otherwise, 0, rest);
      ValidOne(Symbol(Colon), PrintTo(otherwise, 0, rest));
      ValidPrint(then_, 0, last);
      ValidOne(Symbol(Question), PrintTo(then_, 0, last));
      ValidPrint(condition, 1, [Symbol(Question)] + PrintTo(then_, 0, last));
    case Elvis(value, fallback) =>
      ValidPrint(fallback, 0, rest);
      ValidOne(Symbol(Question2), PrintTo(fallback, 0, rest));
      ValidPrint(value, 1, [Symbol(Question2)] + PrintTo(fallback, 0, rest));
  }

  lemma {:induction false} ValidCollection(node: Node, rest: seq<Token>)
    requires (node.ListLiteral? || node.MapLiteral?) && WellFormed(node) && ValidTokens(rest)
    ensures ValidTokens(BareTo(node, rest))
    decreases node, 0, 0
  {
    hide ValidTokens, ItemsTo, EntriesTo;
    ValidOne(Symbol(CloseBrace), rest);
    match node
    case ListLiteral(items) =>
      ValidItems(items, [Symbol(CloseBrace)] + rest);
      ValidOne(Symbol(OpenBrace), ItemsTo(items, [Symbol(CloseBrace)] + rest));
    case MapLiteral(entries) =>
      ValidEntries(entries, [Symbol(CloseBrace)] + rest);
      ValidOne(Symbol(OpenBrace), EntriesTo(entries, [Symbol(CloseBrace)] + rest));
  }

  lemma ValidAtom(node: Node, rest: seq<Token>)
    requires WellFormed(node) && IsAtom(node) && ValidTokens(rest)
    ensures ValidTokens(BareTo(node, rest))
  {
    hide ValidTokens;
    var tokens := BareTo(node, rest);
    assert ValidToken(tokens[0]);
    ValidOne(tokens[0], rest);
  }

  lemma {:induction false} ValidSuffix(target: Node, open: Punctuation, body: Node, rest: seq<Token>)
    requires WellFormed(target) && WellFormed(body) && ValidTokens(rest)
    requires open in {OpenBracket, BangBracket, QuestionBracket}
    ensures ValidTokens(PrintTo(target, 8, [Symbol(open)] + PrintTo(body, 0, [Symbol(CloseBracket)] + rest)))
    decreases WithBody(target, open, body), 0, 0
  {
    hide ValidTokens, PrintTo, WellFormed;
    assert target < WithBody(target, open, body) && body < WithBody(target, open, body);
    ValidOne(Symbol(CloseBracket), rest);
    ValidPrint(body, 0, [Symbol(CloseBracket)] + rest);
    ValidOne(Symbol(open), PrintTo(body, 0, [Symbol(CloseBracket)] + rest));
    ValidPrint(target, 8, [Symbol(open)] + PrintTo(body, 0, [Symbol(CloseBracket)] + rest));
  }

  lemma {:induction false} ValidItems(items: seq<Node>, rest: seq<Token>)
    requires AllWellFormed(items) && ValidTokens(rest)
    ensures ValidTokens(ItemsTo(items, rest))
    decreases items, 2
  {
    hide ValidTokens, PrintTo, WellFormed;
    if |items| == 1 {
      ValidPrint(items[0], 0, rest);
    } else if |items| > 1 {
      ValidItems(items[1..], rest);
      ValidOne(Symbol(Comma), ItemsTo(items[1..], rest));
      ValidPrint(items[0], 0, [Symbol(Comma)] + ItemsTo(items[1..], rest));
    }
  }

  lemma {:induction false} ValidEntries(entries: seq<Entry>, rest: seq<Token>)
    requires AllEntriesWellFormed(entries) && ValidTokens(rest)
    ensures ValidTokens(EntriesTo(entries, rest))
    decreases entries, 2
  {
    hide ValidTokens, PrintTo, WellFormed;
    if entries != [] {
      var others := rest;
      if |entries| > 1 {
        ValidEntries(entries[1..], rest);
        ValidOne(Symbol(Comma), EntriesTo(entries[1..], rest));
        others := [Symbol(Comma)] + EntriesTo(entries[1..], rest);
      }
      ValidPrint(entries[0].value, 0, others);
      ValidTwo(Text(entries[0].key), Symbol(Colon), PrintTo(entries[0].value, 0, others));
    }
  }

  /* The main results. */

  lemma NothingFollows()
    ensures ValidTokens([]) && Pull([]) < 0
  {
  }

  /** What `parse` yields is a tree of the grammar that prints within the nesting limit. */
  lemma ParsedIsSound(tokens: seq<Token>)
    requires ValidTokens(tokens) && Parse(tokens).Ok?
    ensures WellFormed(Parse(tokens).value) && Frames(Parse(tokens).value, 0) <= MAX_NESTING
    ensures Consumed(tokens, [])
  {
    hide Consumed, WellFormed, Frames;
    SoundExpression(tokens, 0, 0);
  }

  /**
   Round trip. Every tree of the grammar, printed and read back, gives the same tree, if and only if it
   nests at most MAX_NESTING deep.
   */
  lemma RoundTrip(node: Node)
    requires WellFormed(node)
    ensures ParseText(Render(Print(node))) == Ok(node, []) <==> Frames(node, 0) <= MAX_NESTING
  {
    hide Expression, PrintTo, Frames, WellFormed, ValidTokens, Lex, Render, Consumed;
    NothingFollows();
    ValidPrint(node, 0, []);
    LexRender(Print(node));
    if Frames(node, 0) <= MAX_NESTING {
      ParsesExpression(node, 0, [], 0);
    }
    if Parse(Print(node)) == Ok(node, []) {
      ParsedIsSound(Print(node));
    }
  }

  /** Normal form. Whatever is accepted, its tree printed with few parentheses is accepted too, as the same tree. */
  lemma NormalForm(expression: string)
    requires ParseText(expression).Ok?
    ensures var node := ParseText(expression).value;
            WellFormed(node) && ParseText(Render(Print(node))) == Ok(node, [])
  {
    hide Expression, PrintTo, Frames, WellFormed, ValidTokens, Lex, Render, Consumed;
    ParsedIsSound(Lex(expression).value);
    RoundTrip(ParseText(expression).value);
  }

  /* The template splitter scans text on its own terms, and yet agrees. */

  predicate IsPlain(c: char) { c !in {'\'', '"', '{', '}'} }

  lemma {:induction false} SkipsPlain(s: string, count: nat, scan: SpelTemplate.Scan)
    requires count <= |s| && scan.quote.None?
    requires forall i :: 0 <= i < count ==> IsPlain(s[i])
    ensures SpelTemplate.ClosingBrace(s, scan)
         == SpelTemplate.Shift(count, SpelTemplate.ClosingBrace(s[count..], scan))
    decreases count
  {
    if count > 0 {
      SkipsPlain(s[1..], count - 1, scan);
      assert s[1..][count - 1..] == s[count..];
    } else {
      assert s[0..] == s;
    }
  }

  /** A string literal leaves the scanner where it was, doubled quotes and braces inside included. */
  lemma {:induction false} SkipsString(s: string, quote: char, tail: string, scan: SpelTemplate.Scan)
    requires StringBody(s, quote).Some? && scan.quote == Some(quote) && quote in {'\'', '"'}
    ensures var n := StringBody(s, quote).value.1;
            SpelTemplate.ClosingBrace(s + tail, scan)
            == SpelTemplate.Shift(n, SpelTemplate.ClosingBrace(s[n..] + tail, scan.(quote := None)))
    decreases |s|
  {
    hide StringBody, SpelTemplate.ClosingBrace, SpelTemplate.Shift, SpelTemplate.Advance;
    BodyStep(s, quote);
    var n := StringBody(s, quote).value.1;
    var closed := scan.(quote := None);
    QuoteSteps(quote, scan);
    if s[0] != quote {
      ScannerAdvances(s[0], scan);
      SkipsString(s[1..], quote, tail, scan);
      OneMore(s, tail, n, scan, scan, closed);
    } else if |s| > 1 && s[1] == quote {
      SkipsString(s[2..], quote, tail, scan);
      assert s[1..][1..] == s[2..];
      OneMore(s[1..], tail, n - 1, closed, scan, closed);
      OneMore(s, tail, n, scan, closed, closed);
    } else {
      ScannerStep(s + tail, scan, closed);
      assert (s + tail)[1..] == s[1..] + tail;
    }
  }

  lemma QuoteSteps(quote: char, scan: SpelTemplate.Scan)
    requires scan.quote == Some(quote) && quote in {'\'', '"'}
    ensures SpelTemplate.Advance(scan, quote) == Some(scan.(quote := None))
    ensures SpelTemplate.Advance(scan.(quote := None), quote) == Some(scan)
  {
  }

  lemma ScannerAdvances(c: char, scan: SpelTemplate.Scan)
    requires scan.quote.Some? && c != scan.quote.value
    ensures SpelTemplate.Advance(scan, c) == Some(scan)
  {
  }

  /** If the scanner passes n - 1 characters from the second one on, it passes n from the first one on. */
  lemma OneMore(s: string, tail: string, n: nat, before: SpelTemplate.Scan, scan: SpelTemplate.Scan,
    after: SpelTemplate.Scan)
    requires 0 < n <= |s| && SpelTemplate.Advance(before, s[0]) == Some(scan)
    requires SpelTemplate.ClosingBrace(s[1..] + tail, scan)
          == SpelTemplate.Shift(n - 1, SpelTemplate.ClosingBrace(s[1..][n - 1..] + tail, after))
    ensures SpelTemplate.ClosingBrace(s + tail, before)
         == SpelTemplate.Shift(n, SpelTemplate.ClosingBrace(s[n..] + tail, after))
  {
    hide SpelTemplate.ClosingBrace, SpelTemplate.Advance;
    assert (s + tail)[1..] == s[1..] + tail;
    assert s[1..][n - 1..] == s[n..];
    ScannerStep(s + tail, before, scan);
  }

  lemma ScannerStep(s: string, scan: SpelTemplate.Scan, next: SpelTemplate.Scan)
    requires s != "" && SpelTemplate.Advance(scan, s[0]) == Some(next)
    ensures SpelTemplate.ClosingBrace(s, scan) == SpelTemplate.Shift(1, SpelTemplate.ClosingBrace(s[1..], next))
  {
  }

  /** A token that is neither a string nor a brace has no character the scanner looks at. */
  lemma TokenIsPlain(s: string)
    requires s != "" && !IsSpace(s[0]) && FirstToken(s).Some?
    requires var token := FirstToken(s).value.0;
             !token.Text? && token != Symbol(OpenBrace) && token != Symbol(CloseBrace)
    ensures forall i :: 0 <= i < FirstToken(s).value.1 ==> IsPlain(s[i])
  {
    var (token, n) := FirstToken(s).value;
    match token
    case VariableName(name) =>
      assert forall i :: 1 <= i < n ==> s[i] == s[1..][i - 1];
    case BeanName(name) =>
      assert forall i :: 1 <= i < n ==> s[i] == s[1..][i - 1];
    case Symbol(symbol) =>
      SymbolIsPlain(symbol);
      assert forall i :: 0 <= i < n ==> s[i] == Spelling(symbol)[i];
    case Identifier(name) =>
    case _ =>
      NumberIsPlain(s);
  }

  lemma NumberIsPlain(s: string)
    requires s != "" && IsDigit(s[0]) && NumberToken(s).Some?
    ensures forall i :: 0 <= i < NumberToken(s).value.1 ==> IsPlain(s[i])
  {
    var shape := ScanNumber(s, 0, None);
    assert forall i :: 0 <= i < shape.end ==> Some(i) == shape.point || IsDigit(s[i]);
    assert shape.long ==> IsLetter(s[shape.end]) by {
      LongSuffix(s, 0, None);
    }
  }

  lemma {:induction false} LongSuffix(s: string, end: nat, point: Option<nat>)
    requires end <= |s|
    ensures var shape := ScanNumber(s, end, point); shape.long ==> IsLetter(s[shape.end])
    decreases |s| - end
  {
    if end < |s| {
      LongSuffix(s, end + 1, point);
      LongSuffix(s, end + 1, Some(end));
    }
  }

  lemma SymbolIsPlain(symbol: Punctuation)
    requires symbol != OpenBrace && symbol != CloseBrace
    ensures forall i :: 0 <= i < |Spelling(symbol)| ==> IsPlain(Spelling(symbol)[i])
  {
  }

  function DepthAfter(token: Token, open: nat): nat {
    if token == Symbol(OpenBrace) then open + 1
    else if token == Symbol(CloseBrace) && open > 0 then open - 1
    else open
  }

  /** One token: the scanner passes over it and counts it if it is a brace. */
  lemma TokenStep(s: string, tail: string, open: nat)
    requires s != "" && !IsSpace(s[0]) && FirstToken(s).Some?
    requires FirstToken(s).value.0 == Symbol(CloseBrace) ==> open > 0
    ensures var (token, n) := FirstToken(s).value;
            SpelTemplate.ClosingBrace(s + tail, SpelTemplate.Scan(open, None))
            == SpelTemplate.Shift(n, SpelTemplate.ClosingBrace(
                                       s[n..] + tail, SpelTemplate.Scan(DepthAfter(token, open), None)))
  {
    hide FirstToken, SpelTemplate.ClosingBrace;
    var (token, n) := FirstToken(s).value;
    if token.Text? {
      TextStep(s, tail, open);
    } else if token in {Symbol(OpenBrace), Symbol(CloseBrace)} {
      BraceStep(s, tail, open);
    } else {
      TokenIsPlain(s);
      SkipsPlain(s + tail, n, SpelTemplate.Scan(open, None));
      assert (s + tail)[n..] == s[n..] + tail;
    }
  }

  lemma TextStep(s: string, tail: string, open: nat)
    requires s != "" && !IsSpace(s[0]) && FirstToken(s).Some? && FirstToken(s).value.0.Text?
    ensures var n := FirstToken(s).value.1;
            SpelTemplate.ClosingBrace(s + tail, SpelTemplate.Scan(open, None))
            == SpelTemplate.Shift(n, SpelTemplate.ClosingBrace(s[n..] + tail, SpelTemplate.Scan(open, None)))
  {
    hide FirstToken, StringBody, SpelTemplate.ClosingBrace, SpelTemplate.Shift;
    var n := FirstToken(s).value.1;
    var outside, inside := SpelTemplate.Scan(open, None), SpelTemplate.Scan(open, Some(s[0]));
    TextToken(s);
    SkipsString(s[1..], s[0], tail, inside);
    OneMore(s, tail, n, outside, inside, outside);
  }

  lemma TextToken(s: string)
    requires s != "" && !IsSpace(s[0]) && FirstToken(s).Some? && FirstToken(s).value.0.Text?
    ensures s[0] in {'\'', '"'} && StringBody(s[1..], s[0]).Some?
    ensures FirstToken(s).value.1 == StringBody(s[1..], s[0]).value.1 + 1
  {
    hide StringBody, FirstSymbol, NumberToken, WordLength;
    NumberIsNoText(s);
  }

  lemma NumberIsNoText(s: string)
    ensures s != "" && IsDigit(s[0]) && NumberToken(s).Some? ==> !NumberToken(s).value.0.Text?
  {
    hide ScanNumber, Decimal;
  }

  lemma BraceStep(s: string, tail: string, open: nat)
    requires s != "" && !IsSpace(s[0]) && FirstToken(s).Some?
    requires FirstToken(s).value.0 in {Symbol(OpenBrace), Symbol(CloseBrace)}
    requires FirstToken(s).value.0 == Symbol(CloseBrace) ==> open > 0
    ensures var (token, n) := FirstToken(s).value;
            SpelTemplate.ClosingBrace(s + tail, SpelTemplate.Scan(open, None))
            == SpelTemplate.Shift(n, SpelTemplate.ClosingBrace(
                                       s[n..] + tail, SpelTemplate.Scan(DepthAfter(token, open), None)))
  {
    hide FirstToken, SpelTemplate.ClosingBrace;
    BraceToken(s);
    ScannerStep(s + tail, SpelTemplate.Scan(open, None),
      SpelTemplate.Scan(DepthAfter(FirstToken(s).value.0, open), None));
    assert (s + tail)[1..] == s[1..] + tail;
  }

  lemma BraceToken(s: string)
    requires s != "" && !IsSpace(s[0]) && FirstToken(s).Some?
    requires FirstToken(s).value.0 in {Symbol(OpenBrace), Symbol(CloseBrace)}
    ensures var (token, n) := FirstToken(s).value; n == 1 && s[0] == if token == Symbol(OpenBrace) then '{' else '}'
  {
    hide StringBody, FirstSymbol, ScanNumber, Decimal;
    var symbol := FirstToken(s).value.0.symbol;
    assert FirstSymbol(SYMBOLS, s) == Some(symbol);
    assert Spelling(symbol) <= s && Spelling(symbol)[0] == s[0];
  }

  lemma LexCases(s: string)
    requires Lex(s).Some?
    ensures s == "" ==> Lex(s) == Some([])
    ensures s != "" && IsSpace(s[0]) ==> Lex(s) == Lex(s[1..])
    ensures s != "" && !IsSpace(s[0]) ==>
      && FirstToken(s).Some? && Lex(s[FirstToken(s).value.1..]).Some?
      && Lex(s).value == [FirstToken(s).value.0] + Lex(s[FirstToken(s).value.1..]).value
  {
    hide FirstToken;
  }

  lemma NoBraces(open: nat)
    ensures Braces([], open) == Some(open)
  {
  }

  lemma BracesStep(token: Token, others: seq<Token>, open: nat)
    requires Braces([token] + others, open).Some?
    ensures token == Symbol(CloseBrace) ==> open > 0
    ensures Braces([token] + others, open) == Braces(others, DepthAfter(token, open))
  {
    assert ([token] + others)[1..] == others;
  }

  /** The scanner's brace depth follows the braces among the tokens. */
  lemma {:induction false} BracesAgree(s: string, tail: string, open: nat)
    requires Lex(s).Some? && Braces(Lex(s).value, open).Some?
    ensures SpelTemplate.ClosingBrace(s + tail, SpelTemplate.Scan(open, None))
         == SpelTemplate.Shift(|s|, SpelTemplate.ClosingBrace(
                                      tail, SpelTemplate.Scan(Braces(Lex(s).value, open).value, None)))
    decreases |s|
  {
    hide FirstToken, SpelTemplate.ClosingBrace, Lex, Braces, DepthAfter;
    LexCases(s);
    if s == "" {
      assert s + tail == tail;
      NoBraces(open);
    } else if IsSpace(s[0]) {
      SkipsPlain(s + tail, 1, SpelTemplate.Scan(open, None));
      assert (s + tail)[1..] == s[1..] + tail;
      BracesAgree(s[1..], tail, open);
    } else {
      var (token, n) := FirstToken(s).value;
      var others := Lex(s[n..]).value;
      BracesStep(token, others, open);
      TokenStep(s, tail, open);
      BracesAgree(s[n..], tail, DepthAfter(token, open));
    }
  }

  /**
   The two scanners agree. Every expression that parses is exactly what the splitter takes to be the
   expression of `#{` expression `}`.
   */
  lemma ScannersAgree(expression: string)
    requires ParseText(expression).Ok?
    ensures SpelTemplate.IsExpressionPart(expression)
    ensures SpelTemplate.Split("#{" + expression + "}") == Some([SpelTemplate.Expression(expression)])
  {
    hide Lex, Expression, Consumed, SpelTemplate.ClosingBrace, SpelTemplate.Split, WellFormed, Frames;
    var tokens := Lex(expression).value;
    ParsedIsSound(tokens);
    assert Braces(tokens, 0) == Some(0) by {
      BracesBalance(tokens);
    }
    BracesAgree(expression, "}", 0);
    ClosesAtOnce("}", SpelTemplate.START);
    SpelTemplate.SplitExpression("", expression, "");
    SpelTemplate.SplitText("");
    assert SpelTemplate.Template("", expression, "") == "#{" + expression + "}";
    var part := SpelTemplate.Expression(expression);
    assert SpelTemplate.TextPart("") + [part] + SpelTemplate.TextPart("") == [part];
  }

  lemma BracesBalance(tokens: seq<Token>)
    requires Consumed(tokens, [])
    ensures Braces(tokens, 0) == Some(0)
  {
    assert Braces(tokens, 0) == Braces([], 0);
  }

  lemma ClosesAtOnce(s: string, scan: SpelTemplate.Scan)
    requires s != "" && s[0] == '}' && scan == SpelTemplate.START
    ensures SpelTemplate.ClosingBrace(s, scan) == Some(0)
  {
  }
}
