/**
 How deep the parser (crates/spel/src/parser.rs) nests, from the tokens alone: one scan over the tokens that
 counts open brackets and pending prefix operators.
 */
module SpelTokenNesting {
  import opened Naturals
  import opened Wrappers
  import opened SpelSyntax
  import opened SpelGrammar
  import opened SpelCost

  // The scan.

  /** What the next token is taken for. */
  datatype Mode =
    | Expecting  // the start of an operand, or a prefix operator
    | Done       // what follows an operand
    | Naming     // a name behind a dot
    | Calling    // the parenthesis of a call
    | InType     // a part of the name in `T(...)`

  /** For every open bracket the prefix operators of the operand it belongs to, those of the current operand,
      and the deepest nesting so far. */
  datatype Scan = Scan(stack: seq<nat>, pending: nat, mode: Mode, peak: nat)

  function Open(stack: seq<nat>): nat {
    if stack == [] then 0 else Open(stack[..|stack| - 1]) + stack[|stack| - 1] + 1
  }

  function Note(s: Scan, mode: Mode): Scan {
    s.(mode := mode, peak := Max(s.peak, Open(s.stack) + s.pending + 1))
  }

  function Opened(s: Scan): Scan {
    s.(stack := s.stack + [s.pending], pending := 0, mode := Expecting)
  }

  function Closed(s: Scan): Scan {
    if s.stack == [] then s.(pending := 0, mode := Done)
    else s.(stack := s.stack[..|s.stack| - 1], pending := s.stack[|s.stack| - 1], mode := Done)
  }

  predicate IsClosing(token: Token) {
    token in {Symbol(CloseParen), Symbol(CloseBracket), Symbol(CloseBrace)}
  }

  /** A prefix operator; `not` before a colon is the key of a map. */
  predicate IsPrefix(tokens: seq<Token>)
    requires tokens != []
  {
    tokens[0] in {Symbol(Bang), Symbol(Minus)} || (tokens[0] == Identifier("not") && !Starts(tokens[1..], Colon))
  }

  predicate IsKeyword(name: string) {
    name in {"true", "false", "null", "new"}
  }

  /** One token; a name looks at the next one as well. */
  function Next(s: Scan, tokens: seq<Token>): Scan
    requires tokens != []
  {
    match s.mode
    case InType => if tokens[0] == Symbol(CloseParen) then s.(mode := Done) else s
    case Naming => s.(mode := if Starts(tokens[1..], OpenParen) then Calling else Done)
    case Calling => Opened(s)
    case Done =>
      if IsClosing(tokens[0]) then Closed(s)
      else if tokens[0] in {Symbol(OpenBracket), Symbol(BangBracket), Symbol(QuestionBracket)} then Opened(s)
      else if tokens[0] in {Symbol(Dot), Symbol(SafeDot)} then s.(mode := Naming)
      else s.(pending := 0, mode := Expecting)
    case Expecting =>
      if IsPrefix(tokens) then s.(pending := s.pending + 1)
      else if IsClosing(tokens[0]) then Closed(s)
      else if tokens[0] in {Symbol(OpenParen), Symbol(OpenBrace)} then Opened(Note(s, Expecting))
      else if tokens[0].Identifier? && !IsKeyword(tokens[0].name) && Starts(tokens[1..], OpenParen) then
        Note(s, if tokens[0].name == "T" then InType else Calling)
      else Note(s, Done)
  }

  function Peak(s: Scan, tokens: seq<Token>): nat
    decreases |tokens|
  {
    if tokens == [] then s.peak else Peak(Next(s, tokens), tokens[1..])
  }

  const START := Scan([], 0, Expecting, 0)

  /** The nesting of a list of tokens. */
  function Nesting(tokens: seq<Token>): nat {
    Peak(START, tokens)
  }

  // The parser without a limit.

  /** A parser with so many levels more is one that starts so much lower. */
  function ParseFrom(tokens: seq<Token>, depth: int): Parsed<Node> {
    var parsed := Expression(tokens, depth, 0);
    if parsed.Err? then parsed else if parsed.rest == [] then Ok(parsed.value, []) else Err(Syntax)
  }

  /** As many levels more as there are tokens are as good as no limit: see `RoomIsEnough`. */
  function Unlimited(tokens: seq<Token>): Parsed<Node> {
    ParseFrom(tokens, -|tokens|)
  }

  predicate Fits(depth: int, need: nat) {
    need == 0 || depth + need <= MAX_NESTING
  }

  /** The outcome with a limit, from the one with more levels: the same if the levels needed are there, else a
      syntax error. An error may be found too late, but not with as many levels as tokens. */
  predicate Limited<T(==)>(wide: Parsed<T>, narrow: Parsed<T>, depth: int, need: nat, size: int) {
    if wide.Ok? then narrow == (if Fits(depth, need) then wide else Err(Syntax))
    else narrow == wide || (narrow == Err(Syntax) && depth + size > MAX_NESTING)
  }

  /** An operand, or a chain of brackets, of which `need` levels are inside. */
  function Raise(s: Scan, need: nat): Scan {
    s.(mode := Done, peak := Max(s.peak, Open(s.stack) + s.pending + 1 + need))
  }

  /** An expression of `need` levels. */
  function Lift(s: Scan, need: nat): Scan {
    s.(mode := Done, pending := 0, peak := Max(s.peak, Open(s.stack) + need))
  }

  predicate IsNoted(s: Scan) {
    s.peak >= Open(s.stack) + s.pending + 1
  }

  /** What follows does not continue the operand. */
  predicate NoSuffix(tokens: seq<Token>) {
    || tokens == []
    || tokens[0] !in {Symbol(OpenBracket), Symbol(BangBracket), Symbol(QuestionBracket), Symbol(Dot), Symbol(SafeDot)}
  }

  lemma PeakStep(s: Scan, tokens: seq<Token>)
    requires tokens != []
    ensures Peak(s, tokens) == Peak(Next(s, tokens), tokens[1..])
  {
  }

  lemma RaiseMore(s: Scan, first: nat, more: nat)
    ensures Raise(s, first).mode.Done? && IsNoted(Raise(s, first))
    ensures Raise(Raise(s, first), more) == Raise(s, Max(first, more))
    ensures Raise(s, first).(pending := 0) == Lift(s, s.pending + (first + 1))
  {
  }

  lemma LiftMore(s: Scan, first: nat, more: nat)
    ensures Lift(s, first).mode.Done? && Lift(s, first).pending == 0
    ensures first > 0 ==> Lift(s, first).peak > Open(Lift(s, first).stack)
    ensures Lift(Lift(s, first), more) == Lift(s, Max(first, more))
    ensures Lift(s.(pending := s.pending + 1), s.pending + 1 + more) == Lift(s, s.pending + (more + 1))
    ensures Lift(s.(mode := Expecting), more) == Lift(s, more)
  {
  }

  lemma PendingIsOver(s: Scan, pending: nat, tokens: seq<Token>)
    requires s.mode.Done? && NoSuffix(tokens)
    ensures Peak(s.(pending := pending), tokens) == Peak(s, tokens)
  {
  }

  lemma OpenMore(s: Scan)
    ensures Open(Opened(s).stack) == Open(s.stack) + s.pending + 1
    ensures Closed(Opened(s)) == s.(mode := Done)
  {
    assert (s.stack + [s.pending])[..|s.stack|] == s.stack;
  }

  ghost predicate ScansExpression(tokens: seq<Token>, rest: seq<Token>, need: nat) {
    && 1 <= need <= |tokens| - |rest| && NoSuffix(rest)
    && forall s: Scan | s.mode.Expecting? && s.pending == 0 :: Peak(s, tokens) == Peak(Lift(s, need), rest)
  }

  ghost predicate ScansTail(tokens: seq<Token>, rest: seq<Token>, need: nat) {
    && need <= |tokens| - |rest| && NoSuffix(rest)
    && forall s: Scan | s.mode.Done? && s.pending == 0 && s.peak > Open(s.stack) ::
         Peak(s, tokens) == Peak(Lift(s, need), rest)
  }

  ghost predicate ScansUnary(tokens: seq<Token>, rest: seq<Token>, need: nat) {
    && 1 <= need <= |tokens| - |rest| && NoSuffix(rest)
    && forall s: Scan | s.mode.Expecting? :: Peak(s, tokens) == Peak(Lift(s, s.pending + need), rest)
  }

  ghost predicate ScansPrimary(tokens: seq<Token>, rest: seq<Token>, need: nat) {
    && need < |tokens| - |rest|
    && forall s: Scan | s.mode.Expecting? :: Peak(s, tokens) == Peak(Raise(s, need), rest)
  }

  ghost predicate ScansSuffixes(tokens: seq<Token>, rest: seq<Token>, need: nat) {
    && need <= |tokens| - |rest| && NoSuffix(rest)
    && forall s: Scan | s.mode.Done? && IsNoted(s) :: Peak(s, tokens) == Peak(Raise(s, need), rest)
  }

  ghost predicate ScansInside(tokens: seq<Token>, rest: seq<Token>, need: nat) {
    && need < |tokens| - |rest|
    && forall s: Scan | IsNoted(s) :: Peak(Opened(s), tokens) == Peak(Raise(s, need), rest)
  }

  lemma ExpressionIsLonger(tokens: seq<Token>, rest: seq<Token>, need: nat)
    requires ScansExpression(tokens, rest, need)
    ensures 1 <= need <= |tokens| - |rest|
  {
  }

  lemma InsideIsLonger(tokens: seq<Token>, rest: seq<Token>, need: nat)
    requires ScansInside(tokens, rest, need)
    ensures need < |tokens| - |rest|
  {
  }

  // Each function of the parser, with every limit at once.

  lemma NoTokens(depth: int, minimum: nat)
    ensures Expression([], depth, minimum) == Err(Syntax) && UnaryExpression([], depth) == Err(Syntax)
    ensures UnaryOperand([], depth) == Err(Syntax) && Postfix([], depth) == Err(Syntax)
  {
    assert Primary([], depth) == Err(Syntax);
    assert Postfix([], depth) == Err(Syntax);
    assert UnaryOperand([], depth) == Err(Syntax);
    assert UnaryOperand([], depth + 1) == Err(Syntax) by {
      assert Primary([], depth + 1) == Err(Syntax);
      assert Postfix([], depth + 1) == Err(Syntax);
    }
  }

  lemma {:induction false} NestUnary(tokens: seq<Token>, e: int) returns (need: nat)
    ensures var wide := UnaryExpression(tokens, e);
      && (forall d: int {:trigger UnaryExpression(tokens, d)} | e <= d ::
            Limited(wide, UnaryExpression(tokens, d), d, need, |tokens|))
      && (wide.Ok? ==> ScansUnary(tokens, wide.rest, need) && OfUnary(tokens, e).frames == need)
    decreases |tokens|, 4
  {
    hide UnaryOperand, OfOperand, ScansUnary;
    need := 0;
    if e < MAX_NESTING {
      var inner := NestOperand(tokens, e + 1);
      need := inner + 1;
    }
    NoTokens(e, 0);
    forall d: int | e <= d
      ensures Limited(UnaryExpression(tokens, e), UnaryExpression(tokens, d), d, need, |tokens|)
    {
      NoTokens(d, 0);
      if d < MAX_NESTING {
        var operand := UnaryOperand(tokens, d + 1);
      }
    }
  }

  /** An operand that the frame at `e` is for. */
  lemma {:induction false} NestOperand(tokens: seq<Token>, e: int) returns (need: nat)
    ensures var wide := UnaryOperand(tokens, e);
      && (forall d: int {:trigger UnaryOperand(tokens, d)} | e <= d ::
            Limited(wide, UnaryOperand(tokens, d), d, need, |tokens| - 1))
      && (wide.Ok? ==> ScansUnary(tokens, wide.rest, need + 1) && OfOperand(tokens, e).frames == need)
    decreases |tokens|, 3
  {
    hide UnaryExpression, Postfix, OfUnary, OfPostfix, ScansUnary;
    if tokens == [] {
      need := 0;
      NoTokens(e, 0);
      forall d: int | e <= d
        ensures UnaryOperand(tokens, d) == Err(Syntax)
      {
        NoTokens(d, 0);
      }
    } else if tokens[0] in {Symbol(Bang), Symbol(Minus), Identifier("not")} {
      need := NestUnary(tokens[1..], e);
      var wide := UnaryExpression(tokens[1..], e);
      forall d: int | e <= d
        ensures Limited(UnaryOperand(tokens, e), UnaryOperand(tokens, d), d, need, |tokens| - 1)
      {
        var narrow := UnaryExpression(tokens[1..], d);
        assert Limited(wide, narrow, d, need, |tokens| - 1);
      }
      if wide.Ok? {
        PrefixScans(tokens, e, wide.rest, need);
      }
    } else {
      need := NestPostfix(tokens, e);
      forall d: int | e <= d
        ensures UnaryOperand(tokens, d) == Postfix(tokens, d)
      {
      }
    }
  }

  lemma PrefixScans(tokens: seq<Token>, e: int, rest: seq<Token>, need: nat)
    requires tokens != [] && tokens[0] in {Symbol(Bang), Symbol(Minus), Identifier("not")}
    requires UnaryExpression(tokens[1..], e).Ok?
    requires ScansUnary(tokens[1..], rest, need)
    ensures ScansUnary(tokens, rest, need + 1)
  {
    hide UnaryExpression, Peak, Lift, Open;
    ColonIsNoOperand(tokens[1..], e);
    forall s: Scan | s.mode.Expecting?
      ensures Peak(s, tokens) == Peak(Lift(s, s.pending + (need + 1)), rest)
    {
      var after := s.(pending := s.pending + 1);
      PeakStep(s, tokens);
      assert Next(s, tokens) == after;
      assert Peak(after, tokens[1..]) == Peak(Lift(after, after.pending + need), rest);
      LiftMore(s, 0, need);
    }
  }

  lemma ColonIsNoOperand(tokens: seq<Token>, e: int)
    ensures Starts(tokens, Colon) ==> UnaryExpression(tokens, e).Err?
  {
    if Starts(tokens, Colon) && e < MAX_NESTING {
      assert Primary(tokens, e + 1) == Err(Syntax);
      assert Postfix(tokens, e + 1) == Err(Syntax);
      assert UnaryOperand(tokens, e + 1) == Err(Syntax);
    }
  }

  lemma {:induction false} NestPostfix(tokens: seq<Token>, e: int) returns (need: nat)
    requires tokens != [] && tokens[0] !in {Symbol(Bang), Symbol(Minus), Identifier("not")}
    ensures var wide := Postfix(tokens, e);
      && (forall d: int {:trigger Postfix(tokens, d)} | e <= d ::
            Limited(wide, Postfix(tokens, d), d, need, |tokens| - 1))
      && (wide.Ok? ==> ScansUnary(tokens, wide.rest, need + 1) && OfPostfix(tokens, e).frames == need)
    decreases |tokens|, 2
  {
    hide Primary, PostfixTail, OfPrimary, OfSuffixes, ScansUnary, Peak;
    var first := NestPrimary(tokens, e);
    need := first;
    var primary := Primary(tokens, e);
    if primary.Ok? {
      var more := NestSuffixes(primary.value, primary.rest, e);
      need := Max(first, more);
      if PostfixTail(primary.value, primary.rest, e).Ok? {
        PostfixScans(tokens, primary.rest, PostfixTail(primary.value, primary.rest, e).rest, first, more);
      }
    }
    forall d: int | e <= d
      ensures Limited(Postfix(tokens, e), Postfix(tokens, d), d, need, |tokens| - 1)
    {
      var narrow := Primary(tokens, d);
      assert Limited(primary, narrow, d, first, |tokens| - 1);
      if primary.Ok? {
        var tail := PostfixTail(primary.value, primary.rest, d);
      }
    }
  }

  lemma PostfixScans(tokens: seq<Token>, middle: seq<Token>, rest: seq<Token>, first: nat, more: nat)
    requires ScansPrimary(tokens, middle, first) && ScansSuffixes(middle, rest, more) && |rest| <= |middle|
    ensures ScansUnary(tokens, rest, Max(first, more) + 1)
  {
    hide Peak, Raise, Lift, Open, IsNoted;
    var need := Max(first, more);
    forall s: Scan | s.mode.Expecting?
      ensures Peak(s, tokens) == Peak(Lift(s, s.pending + (need + 1)), rest)
    {
      var after := Raise(s, first);
      RaiseMore(s, first, more);
      RaiseMore(s, need, 0);
      assert Peak(s, tokens) == Peak(after, middle);
      assert Peak(after, middle) == Peak(Raise(s, need), rest);
      PendingIsOver(Raise(s, need), 0, rest);
    }
  }

  /** The loop over what follows an operand. */
  lemma {:induction false} NestSuffixes(node: Node, tokens: seq<Token>, e: int) returns (need: nat)
    ensures var wide := PostfixTail(node, tokens, e);
      && (forall d: int {:trigger PostfixTail(node, tokens, d)} | e <= d ::
            Limited(wide, PostfixTail(node, tokens, d), d, need, |tokens|))
      && (wide.Ok? ==> ScansSuffixes(tokens, wide.rest, need) && OfSuffixes(node, tokens, e).frames == need)
    decreases |tokens|, 1
  {
    hide Bracketed, Arguments, OfSuffixes, ScansSuffixes, PostfixTail;
    if NoSuffix(tokens) {
      need := 0;
      NoMoreSuffixes(node, tokens, e);
      NoSuffixes(node, tokens, e);
      forall d: int | e <= d
        ensures PostfixTail(node, tokens, d) == Ok(node, tokens)
      {
        NoMoreSuffixes(node, tokens, d);
      }
    } else if tokens[0] in {Symbol(OpenBracket), Symbol(BangBracket), Symbol(QuestionBracket)} {
      need := NestBracketSuffix(node, tokens, e);
    } else {
      need := NestMember(node, tokens, e);
    }
  }

  lemma NoMoreSuffixes(node: Node, tokens: seq<Token>, e: int)
    requires NoSuffix(tokens)
    ensures PostfixTail(node, tokens, e) == Ok(node, tokens)
    ensures ScansSuffixes(tokens, tokens, 0)
  {
    forall s: Scan | s.mode.Done? && IsNoted(s)
      ensures Peak(s, tokens) == Peak(Raise(s, 0), tokens)
    {
      assert Raise(s, 0) == s;
    }
  }

  lemma {:induction false} NestBracketSuffix(node: Node, tokens: seq<Token>, e: int) returns (need: nat)
    requires tokens != [] && tokens[0] in {Symbol(OpenBracket), Symbol(BangBracket), Symbol(QuestionBracket)}
    ensures var wide := PostfixTail(node, tokens, e);
      && (forall d: int {:trigger PostfixTail(node, tokens, d)} | e <= d ::
            Limited(wide, PostfixTail(node, tokens, d), d, need, |tokens|))
      && (wide.Ok? ==> ScansSuffixes(tokens, wide.rest, need) && OfSuffixes(node, tokens, e).frames == need)
    decreases |tokens|, 0
  {
    hide Bracketed, PostfixTail, OfExpression, OfSuffixes, Peak, ScansInside, ScansSuffixes;
    var inside := NestBracketed(tokens[1..], e);
    var body := Bracketed(tokens[1..], e);
    BracketUnfolds(node, tokens, e);
    BracketCosts(node, tokens, e);
    need := inside;
    if body.Ok? {
      InsideIsLonger(tokens[1..], body.rest, inside);
      var larger := WithBody(node, tokens[0].symbol, body.value);
      var more := NestSuffixes(larger, body.rest, e);
      need := Max(inside, more);
      if PostfixTail(larger, body.rest, e).Ok? {
        SuffixScans(tokens, tokens[1..], body.rest, PostfixTail(larger, body.rest, e).rest, inside, more);
      }
    }
    forall d: int | e <= d
      ensures Limited(PostfixTail(node, tokens, e), PostfixTail(node, tokens, d), d, need, |tokens|)
    {
      BracketUnfolds(node, tokens, d);
      assert Limited(body, Bracketed(tokens[1..], d), d, inside, |tokens| - 1);
      if body.Ok? {
        var tail := PostfixTail(WithBody(node, tokens[0].symbol, body.value), body.rest, d);
      }
    }
  }

  lemma SuffixScans(
      tokens: seq<Token>, inner: seq<Token>, middle: seq<Token>, rest: seq<Token>, inside: nat, more: nat)
    requires tokens != [] && tokens[0] in {Symbol(OpenBracket), Symbol(BangBracket), Symbol(QuestionBracket)}
    requires inner == tokens[1..] && ScansInside(inner, middle, inside) && ScansSuffixes(middle, rest, more)
    ensures ScansSuffixes(tokens, rest, Max(inside, more))
  {
    hide Peak, Raise, Open, Opened, IsNoted;
    forall s: Scan | s.mode.Done? && IsNoted(s)
      ensures Peak(s, tokens) == Peak(Raise(s, Max(inside, more)), rest)
    {
      var after := Raise(s, inside);
      RaiseMore(s, inside, more);
      PeakStep(s, tokens);
      assert Next(s, tokens) == Opened(s);
      assert Peak(Opened(s), inner) == Peak(after, middle);
      assert Peak(after, middle) == Peak(Raise(after, more), rest);
    }
  }

  /** A property or a call behind a dot. */
  lemma {:induction false} NestMember(node: Node, tokens: seq<Token>, e: int) returns (need: nat)
    requires Starts(tokens, Dot) || Starts(tokens, SafeDot)
    ensures var wide := PostfixTail(node, tokens, e);
      && (forall d: int {:trigger PostfixTail(node, tokens, d)} | e <= d ::
            Limited(wide, PostfixTail(node, tokens, d), d, need, |tokens|))
      && (wide.Ok? ==> ScansSuffixes(tokens, wide.rest, need) && OfSuffixes(node, tokens, e).frames == need)
    decreases |tokens|, 0
  {
    hide Arguments, PostfixTail, OfArguments, OfSuffixes, Peak;
    need := 0;
    MemberUnfolds(node, tokens, e);
    MemberCosts(node, tokens, e);
    if |tokens| > 1 && tokens[1].Identifier? {
      if Starts(tokens[2..], OpenParen) {
        need := NestCallSuffix(node, tokens, e);
      } else {
        var larger := Property(node, tokens[1].name, Starts(tokens, SafeDot));
        need := NestSuffixes(larger, tokens[2..], e);
        forall d: int | e <= d
          ensures PostfixTail(node, tokens, d) == PostfixTail(larger, tokens[2..], d)
        {
          MemberUnfolds(node, tokens, d);
        }
        if PostfixTail(larger, tokens[2..], e).Ok? {
          PropertyScans(tokens, PostfixTail(larger, tokens[2..], e).rest, need);
        }
      }
    } else {
      forall d: int | e <= d
        ensures PostfixTail(node, tokens, d) == Err(Syntax)
      {
        MemberUnfolds(node, tokens, d);
      }
    }
  }

  lemma PropertyScans(tokens: seq<Token>, rest: seq<Token>, need: nat)
    requires |tokens| > 1 && tokens[0] in {Symbol(Dot), Symbol(SafeDot)} && tokens[1].Identifier?
    requires !Starts(tokens[2..], OpenParen) && ScansSuffixes(tokens[2..], rest, need)
    ensures ScansSuffixes(tokens, rest, need)
  {
    forall s: Scan | s.mode.Done? && IsNoted(s)
      ensures Peak(s, tokens) == Peak(Raise(s, need), rest)
    {
      assert tokens[1..][1..] == tokens[2..];
      assert Next(s, tokens) == s.(mode := Naming);
      assert Next(s.(mode := Naming), tokens[1..]) == s;
      assert Peak(s.(mode := Naming), tokens[1..]) == Peak(s, tokens[2..]);
    }
  }

  lemma {:induction false} NestCallSuffix(node: Node, tokens: seq<Token>, e: int) returns (need: nat)
    requires Starts(tokens, Dot) || Starts(tokens, SafeDot)
    requires |tokens| > 1 && tokens[1].Identifier? && Starts(tokens[2..], OpenParen)
    ensures var wide := PostfixTail(node, tokens, e);
      && (forall d: int {:trigger PostfixTail(node, tokens, d)} | e <= d ::
            Limited(wide, PostfixTail(node, tokens, d), d, need, |tokens|))
      && (wide.Ok? ==> ScansSuffixes(tokens, wide.rest, need) && OfSuffixes(node, tokens, e).frames == need)
    decreases |tokens|, 0, 0
  {
    hide Arguments, PostfixTail, OfArguments, OfSuffixes, Peak;
    var name, safe := tokens[1].name, Starts(tokens, SafeDot);
    var inside := NestArguments(tokens[3..], e);
    var arguments := Arguments(tokens[3..], e);
    MemberUnfolds(node, tokens, e);
    MemberCosts(node, tokens, e);
    need := inside;
    if arguments.Ok? {
      var larger := Call(Some(node), name, arguments.value, safe);
      var more := NestSuffixes(larger, arguments.rest, e);
      need := Max(inside, more);
      if PostfixTail(larger, arguments.rest, e).Ok? {
        CallScans(tokens, arguments.rest, PostfixTail(larger, arguments.rest, e).rest, inside, more);
      }
    }
    forall d: int | e <= d
      ensures Limited(PostfixTail(node, tokens, e), PostfixTail(node, tokens, d), d, need, |tokens|)
    {
      MemberUnfolds(node, tokens, d);
      assert Limited(arguments, Arguments(tokens[3..], d), d, inside, |tokens| - 3);
      if arguments.Ok? {
        var tail := PostfixTail(Call(Some(node), name, arguments.value, safe), arguments.rest, d);
      }
    }
  }

  lemma CallOpens(s: Scan, tokens: seq<Token>)
    requires |tokens| > 2 && tokens[0] in {Symbol(Dot), Symbol(SafeDot)} && tokens[1].Identifier?
    requires Starts(tokens[2..], OpenParen) && s.mode.Done?
    ensures Peak(s, tokens) == Peak(Opened(s), tokens[3..])
  {
    hide Peak;
    var naming, calling := s.(mode := Naming), s.(mode := Calling);
    assert tokens[1..][1..] == tokens[2..] && tokens[2..][1..] == tokens[3..];
    PeakStep(s, tokens);
    PeakStep(naming, tokens[1..]);
    PeakStep(calling, tokens[2..]);
    assert Opened(calling) == Opened(s);
  }

  lemma CallScans(tokens: seq<Token>, middle: seq<Token>, rest: seq<Token>, inside: nat, more: nat)
    requires |tokens| > 2 && tokens[0] in {Symbol(Dot), Symbol(SafeDot)} && tokens[1].Identifier?
    requires Starts(tokens[2..], OpenParen)
    requires ScansInside(tokens[3..], middle, inside) && ScansSuffixes(middle, rest, more)
    ensures ScansSuffixes(tokens, rest, Max(inside, more))
  {
    hide Peak, Raise, Open, Opened, IsNoted;
    forall s: Scan | s.mode.Done? && IsNoted(s)
      ensures Peak(s, tokens) == Peak(Raise(s, Max(inside, more)), rest)
    {
      CallOpens(s, tokens);
      var after := Raise(s, inside);
      RaiseMore(s, inside, more);
      assert Peak(Opened(s), tokens[3..]) == Peak(after, middle) == Peak(Raise(after, more), rest);
    }
  }

  // What is between brackets, after the opening one.

  lemma ClosingScans(tokens: seq<Token>, middle: seq<Token>, need: nat)
    requires ScansExpression(tokens, middle, need) && middle != [] && IsClosing(middle[0])
    ensures ScansInside(tokens, middle[1..], need)
  {
    forall s: Scan | IsNoted(s)
      ensures Peak(Opened(s), tokens) == Peak(Raise(s, need), middle[1..])
    {
      OpenMore(s);
      var inner := Lift(Opened(s), need);
      assert Peak(Opened(s), tokens) == Peak(inner, middle);
      assert Next(inner, middle) == Closed(inner) == Raise(s, need);
    }
  }

  lemma {:induction false} NestBracketed(tokens: seq<Token>, e: int) returns (need: nat)
    ensures var wide := Bracketed(tokens, e);
      && (forall d: int {:trigger Bracketed(tokens, d)} | e <= d ::
            Limited(wide, Bracketed(tokens, d), d, need, |tokens|))
      && (wide.Ok? ==> ScansInside(tokens, wide.rest, need) && OfExpression(tokens, e, 0).frames == need)
    decreases |tokens|, 6
  {
    hide Expression, OfExpression, ScansInside, Peak;
    need := NestExpression(tokens, e, 0);
    var body := Expression(tokens, e, 0);
    forall d: int | e <= d
      ensures Limited(Bracketed(tokens, e), Bracketed(tokens, d), d, need, |tokens|)
    {
      assert Limited(body, Expression(tokens, d, 0), d, need, |tokens|);
    }
    if Bracketed(tokens, e).Ok? {
      ClosingScans(tokens, body.rest, need);
    }
  }

  lemma {:induction false} NestArguments(tokens: seq<Token>, e: int) returns (need: nat)
    ensures var wide := Arguments(tokens, e);
      && (forall d: int {:trigger Arguments(tokens, d)} | e <= d ::
            Limited(wide, Arguments(tokens, d), d, need, |tokens|))
      && (wide.Ok? ==> ScansInside(tokens, wide.rest, need) && OfArguments(tokens, e).frames == need)
    decreases |tokens|, 7
  {
    hide Items, OfItems;
    if Starts(tokens, CloseParen) {
      need := 0;
      EmptyScans(tokens);
    } else {
      need := NestItems(tokens, e, CloseParen);
      forall d: int | e <= d
        ensures Arguments(tokens, d) == Items(tokens, d, CloseParen)
      {
      }
    }
  }

  lemma EmptyScans(tokens: seq<Token>)
    requires tokens != [] && IsClosing(tokens[0])
    ensures ScansInside(tokens, tokens[1..], 0)
  {
    forall s: Scan | IsNoted(s)
      ensures Peak(Opened(s), tokens) == Peak(Raise(s, 0), tokens[1..])
    {
      OpenMore(s);
      assert Next(Opened(s), tokens) == Closed(Opened(s)) == Raise(s, 0);
    }
  }

  lemma {:induction false} NestItems(tokens: seq<Token>, e: int, close: Punctuation) returns (need: nat)
    requires IsClosing(Symbol(close))
    ensures var wide := Items(tokens, e, close);
      && (forall d: int {:trigger Items(tokens, d, close)} | e <= d ::
            Limited(wide, Items(tokens, d, close), d, need, |tokens|))
      && (wide.Ok? ==> ScansInside(tokens, wide.rest, need) && OfItems(tokens, e).frames == need)
    decreases |tokens|, 6
  {
    hide Expression, Items, OfExpression, OfItems, Peak, ScansInside, ScansExpression;
    var first := NestExpression(tokens, e, 0);
    var item := Expression(tokens, e, 0);
    need := first;
    ItemsUnfold(tokens, e, close);
    ItemsCost(tokens, e);
    if item.Ok? {
      ExpressionIsLonger(tokens, item.rest, first);
    }
    if item.Ok? && Starts(item.rest, Comma) {
      var more := NestItems(item.rest[1..], e, close);
      need := Max(first, more);
      if Items(item.rest[1..], e, close).Ok? {
        CommaScans(tokens, item.rest, Items(item.rest[1..], e, close).rest, first, more);
      }
    } else if item.Ok? && Starts(item.rest, close) {
      ClosingScans(tokens, item.rest, first);
    }
    forall d: int | e <= d
      ensures Limited(Items(tokens, e, close), Items(tokens, d, close), d, need, |tokens|)
    {
      ItemsUnfold(tokens, d, close);
      assert Limited(item, Expression(tokens, d, 0), d, first, |tokens|);
      if item.Ok? && Starts(item.rest, Comma) {
        var others := Items(item.rest[1..], d, close);
      }
    }
  }

  /** Behind a comma the bracket is open as it was. */
  lemma CommaOpens(s: Scan, first: nat, tokens: seq<Token>)
    requires Starts(tokens, Comma)
    ensures Opened(s).mode.Expecting? && Opened(s).pending == 0
    ensures Peak(Lift(Opened(s), first), tokens) == Peak(Opened(Raise(s, first)), tokens[1..])
  {
    hide Peak;
    OpenMore(s);
    PeakStep(Lift(Opened(s), first), tokens);
    assert Next(Lift(Opened(s), first), tokens) == Opened(Raise(s, first));
  }

  /** One more item, or one more entry, behind a comma. */
  lemma CommaScans(tokens: seq<Token>, middle: seq<Token>, rest: seq<Token>, first: nat, more: nat)
    requires ScansExpression(tokens, middle, first) && Starts(middle, Comma) && ScansInside(middle[1..], rest, more)
    requires |rest| < |middle|
    ensures ScansInside(tokens, rest, Max(first, more))
  {
    hide Peak, Raise, Lift, Open, Opened, IsNoted;
    forall s: Scan | IsNoted(s)
      ensures Peak(Opened(s), tokens) == Peak(Raise(s, Max(first, more)), rest)
    {
      var after := Raise(s, first);
      RaiseMore(s, first, more);
      CommaOpens(s, first, middle);
      assert Peak(Opened(s), tokens) == Peak(Lift(Opened(s), first), middle);
      assert Peak(Opened(after), middle[1..]) == Peak(Raise(after, more), rest);
    }
  }

  lemma {:induction false} NestCollection(tokens: seq<Token>, e: int) returns (need: nat)
    ensures var wide := InlineCollection(tokens, e);
      && (forall d: int {:trigger InlineCollection(tokens, d)} | e <= d ::
            Limited(wide, InlineCollection(tokens, d), d, need, |tokens|))
      && (wide.Ok? ==> ScansInside(tokens, wide.rest, need) && OfCollection(tokens, e).frames == need)
    decreases |tokens|, 7
  {
    hide Items, Entries, OfItems, OfEntries, ScansInside;
    if Starts(tokens, CloseBrace) {
      need := 0;
      EmptyScans(tokens);
    } else if StartsEntry(tokens) {
      need := NestEntries(tokens, e);
      forall d: int | e <= d
        ensures Limited(InlineCollection(tokens, e), InlineCollection(tokens, d), d, need, |tokens|)
      {
        assert Limited(Entries(tokens, e), Entries(tokens, d), d, need, |tokens|);
      }
    } else {
      need := NestItems(tokens, e, CloseBrace);
      forall d: int | e <= d
        ensures Limited(InlineCollection(tokens, e), InlineCollection(tokens, d), d, need, |tokens|)
      {
        assert Limited(Items(tokens, e, CloseBrace), Items(tokens, d, CloseBrace), d, need, |tokens|);
      }
    }
  }

  lemma {:induction false} NestEntries(tokens: seq<Token>, e: int) returns (need: nat)
    ensures var wide := Entries(tokens, e);
      && (forall d: int {:trigger Entries(tokens, d)} | e <= d ::
            Limited(wide, Entries(tokens, d), d, need, |tokens|))
      && (wide.Ok? ==> ScansInside(tokens, wide.rest, need) && OfEntries(tokens, e).frames == need)
    decreases |tokens|, 6
  {
    hide Expression, Entries, OfExpression, OfEntries, Peak, ScansInside;
    need := 0;
    EntriesUnfold(tokens, e);
    EntriesCost(tokens, e);
    if StartsEntry(tokens) {
      var first := NestExpression(tokens[2..], e, 0);
      var value := Expression(tokens[2..], e, 0);
      need := first;
      if value.Ok? && Starts(value.rest, Comma) {
        var more := NestEntries(value.rest[1..], e);
        need := Max(first, more);
        if Entries(value.rest[1..], e).Ok? {
          CommaScans(tokens[2..], value.rest, Entries(value.rest[1..], e).rest, first, more);
          KeyScans(tokens, Entries(value.rest[1..], e).rest, need);
        }
      } else if value.Ok? && Starts(value.rest, CloseBrace) {
        ClosingScans(tokens[2..], value.rest, first);
        KeyScans(tokens, value.rest[1..], first);
      }
      forall d: int | e <= d
        ensures Limited(Entries(tokens, e), Entries(tokens, d), d, need, |tokens|)
      {
        EntriesUnfold(tokens, d);
        assert Limited(value, Expression(tokens[2..], d, 0), d, first, |tokens| - 2);
        if value.Ok? && Starts(value.rest, Comma) {
          var others := Entries(value.rest[1..], d);
        }
      }
    } else {
      forall d: int | e <= d
        ensures Entries(tokens, d) == Err(Syntax)
      {
        EntriesUnfold(tokens, d);
      }
    }
  }

  /** A key is scanned like an operand, and costs nothing. */
  lemma KeyScans(tokens: seq<Token>, rest: seq<Token>, need: nat)
    requires StartsEntry(tokens) && |tokens| >= 2 && ScansInside(tokens[2..], rest, need) && need >= 1
    ensures ScansInside(tokens, rest, need)
  {
    forall s: Scan | IsNoted(s)
      ensures Peak(Opened(s), tokens) == Peak(Raise(s, need), rest)
    {
      OpenMore(s);
      var key := Note(Opened(s), Done);
      var noted := s.(peak := Max(s.peak, Open(s.stack) + s.pending + 2));
      assert tokens[1..][1..] == tokens[2..];
      assert Next(Opened(s), tokens) == key;
      assert Next(key, tokens[1..]) == Opened(noted);
      assert Peak(Opened(noted), tokens[2..]) == Peak(Raise(noted, need), rest);
      assert Raise(noted, need) == Raise(s, need);
    }
  }

  // Primaries.

  lemma {:induction false} NestPrimary(tokens: seq<Token>, e: int) returns (need: nat)
    requires tokens != [] && tokens[0] !in {Symbol(Bang), Symbol(Minus), Identifier("not")}
    ensures var wide := Primary(tokens, e);
      && (forall d: int {:trigger Primary(tokens, d)} | e <= d ::
            Limited(wide, Primary(tokens, d), d, need, |tokens| - 1))
      && (wide.Ok? ==> ScansPrimary(tokens, wide.rest, need) && OfPrimary(tokens, e).frames == need)
    decreases |tokens|, 1
  {
    hide Expression, InlineCollection, Named, OfExpression, OfCollection, OfArguments, ScansPrimary, ScansInside;
    need := 0;
    if tokens[0] == Symbol(OpenParen) {
      need := NestGroup(tokens, e);
    } else if tokens[0] == Symbol(OpenBrace) {
      need := NestCollection(tokens[1..], e);
      if InlineCollection(tokens[1..], e).Ok? {
        OpeningScans(tokens, InlineCollection(tokens[1..], e).rest, need);
      }
    } else if tokens[0].Identifier? {
      need := NestNamed(tokens, e);
    } else if !tokens[0].Symbol? {
      LiteralScans(tokens);
    }
  }

  lemma {:induction false} NestGroup(tokens: seq<Token>, e: int) returns (need: nat)
    requires Starts(tokens, OpenParen)
    ensures var wide := Primary(tokens, e);
      && (forall d: int {:trigger Primary(tokens, d)} | e <= d ::
            Limited(wide, Primary(tokens, d), d, need, |tokens| - 1))
      && (wide.Ok? ==> ScansPrimary(tokens, wide.rest, need) && OfPrimary(tokens, e).frames == need)
    decreases |tokens|, 0
  {
    hide Expression, InlineCollection, Named, OfExpression, OfCollection, OfArguments, ScansPrimary, ScansInside, Peak;
    need := NestExpression(tokens[1..], e, 0);
    var inner := Expression(tokens[1..], e, 0);
    forall d: int | e <= d
      ensures Limited(Primary(tokens, e), Primary(tokens, d), d, need, |tokens| - 1)
    {
      assert Limited(inner, Expression(tokens[1..], d, 0), d, need, |tokens| - 1);
    }
    if Primary(tokens, e).Ok? {
      ClosingScans(tokens[1..], inner.rest, need);
      OpeningScans(tokens, inner.rest[1..], need);
    }
  }

  lemma OpeningScans(tokens: seq<Token>, rest: seq<Token>, need: nat)
    requires tokens != [] && tokens[0] in {Symbol(OpenParen), Symbol(OpenBrace)} && ScansInside(tokens[1..], rest, need)
    ensures ScansPrimary(tokens, rest, need)
  {
    forall s: Scan | s.mode.Expecting?
      ensures Peak(s, tokens) == Peak(Raise(s, need), rest)
    {
      var noted := Note(s, Expecting);
      assert Next(s, tokens) == Opened(noted);
      assert Peak(Opened(noted), tokens[1..]) == Peak(Raise(noted, need), rest);
      assert Raise(noted, need) == Raise(s, need);
    }
  }

  lemma LiteralScans(tokens: seq<Token>)
    requires tokens != [] && !tokens[0].Symbol?
    requires tokens[0].Identifier? ==>
      tokens[0].name != "not" && (IsKeyword(tokens[0].name) || !Starts(tokens[1..], OpenParen))
    ensures ScansPrimary(tokens, tokens[1..], 0)
  {
    forall s: Scan | s.mode.Expecting?
      ensures Peak(s, tokens) == Peak(Raise(s, 0), tokens[1..])
    {
      assert Next(s, tokens) == Raise(s, 0);
    }
  }

  lemma {:induction false} NestNamed(tokens: seq<Token>, e: int) returns (need: nat)
    requires tokens != [] && tokens[0].Identifier? && tokens[0].name != "not"
    ensures var wide := Primary(tokens, e);
      && (forall d: int {:trigger Primary(tokens, d)} | e <= d ::
            Limited(wide, Primary(tokens, d), d, need, |tokens| - 1))
      && (wide.Ok? ==> ScansPrimary(tokens, wide.rest, need) && OfPrimary(tokens, e).frames == need)
    decreases |tokens|, 0
  {
    hide Expression, InlineCollection, Arguments, OfExpression, OfCollection, OfArguments, TypeName, ScansPrimary,
      ScansInside, Peak;
    var name := tokens[0].name;
    need := 0;
    if IsKeyword(name) || !Starts(tokens[1..], OpenParen) {
      LiteralScans(tokens);
    } else if name == "T" {
      assert tokens[1..][1..] == tokens[2..];
      TypeUnfolds(tokens, e);
      forall d: int | e <= d
        ensures Primary(tokens, e) == Primary(tokens, d)
      {
        TypeUnfolds(tokens, d);
      }
      if Primary(tokens, e).Ok? {
        TypeScans(tokens, TypeName(tokens[2..]).rest);
      }
    } else {
      assert tokens[1..][1..] == tokens[2..];
      need := NestArguments(tokens[2..], e);
      forall d: int | e <= d
        ensures Limited(Primary(tokens, e), Primary(tokens, d), d, need, |tokens| - 1)
      {
        assert Limited(Arguments(tokens[2..], e), Arguments(tokens[2..], d), d, need, |tokens| - 2);
      }
      if Arguments(tokens[2..], e).Ok? {
        HelperScans(tokens, Arguments(tokens[2..], e).rest, need);
      }
    }
  }

  lemma HelperScans(tokens: seq<Token>, rest: seq<Token>, need: nat)
    requires |tokens| >= 2 && tokens[0].Identifier? && Starts(tokens[1..], OpenParen)
    requires tokens[0].name != "not" && tokens[0].name != "T" && !IsKeyword(tokens[0].name)
    requires ScansInside(tokens[2..], rest, need)
    ensures ScansPrimary(tokens, rest, need)
  {
    forall s: Scan | s.mode.Expecting?
      ensures Peak(s, tokens) == Peak(Raise(s, need), rest)
    {
      var noted := Note(s, Calling);
      assert tokens[1..][1..] == tokens[2..];
      assert Next(s, tokens) == noted && Next(noted, tokens[1..]) == Opened(noted);
      assert Peak(Opened(noted), tokens[2..]) == Peak(Raise(noted, need), rest);
      assert Raise(noted, need) == Raise(s, need);
    }
  }

  lemma TypeScans(tokens: seq<Token>, rest: seq<Token>)
    requires |tokens| >= 2 && tokens[0] == Identifier("T") && Starts(tokens[1..], OpenParen)
    requires TypeName(tokens[2..]).Ok? && rest == TypeName(tokens[2..]).rest && Starts(rest, CloseParen)
    ensures ScansPrimary(tokens, rest[1..], 0)
  {
    hide TypeName;
    forall s: Scan | s.mode.Expecting?
      ensures Peak(s, tokens) == Peak(Raise(s, 0), rest[1..])
    {
      var noted := Note(s, InType);
      assert tokens[1..][1..] == tokens[2..];
      assert Next(s, tokens) == noted && Next(noted, tokens[1..]) == noted;
      InTypeName(noted, tokens[2..]);
      assert Next(noted, rest) == Raise(s, 0);
    }
  }

  lemma {:induction false} InTypeName(s: Scan, tokens: seq<Token>)
    requires s.mode.InType? && TypeName(tokens).Ok?
    ensures Peak(s, tokens) == Peak(s, TypeName(tokens).rest)
    decreases |tokens|
  {
    assert Next(s, tokens) == s;
    if Starts(tokens[1..], Dot) {
      assert Next(s, tokens[1..]) == s && tokens[1..][1..] == tokens[2..];
      InTypeName(s, tokens[2..]);
    }
  }

  // Expressions.

  lemma {:induction false} NestExpression(tokens: seq<Token>, e: int, minimum: nat) returns (need: nat)
    ensures var wide := Expression(tokens, e, minimum);
      && (forall d: int {:trigger Expression(tokens, d, minimum)} | e <= d ::
            Limited(wide, Expression(tokens, d, minimum), d, need, |tokens|))
      && (wide.Ok? ==> ScansExpression(tokens, wide.rest, need) && OfExpression(tokens, e, minimum).frames == need)
    decreases |tokens|, 5
  {
    hide UnaryExpression, ExpressionTail, OfUnary, OfTail, ScansExpression, Peak;
    var first := NestUnary(tokens, e);
    var unary := UnaryExpression(tokens, e);
    need := first;
    if unary.Ok? {
      var more := NestTail(unary.value, unary.rest, e, minimum);
      need := Max(first, more);
      var tail := ExpressionTail(unary.value, unary.rest, e, minimum);
      if tail.Ok? {
        OperandThenTail(tokens, unary.rest, tail.rest, first, more);
      }
    }
    forall d: int | e <= d
      ensures Limited(Expression(tokens, e, minimum), Expression(tokens, d, minimum), d, need, |tokens|)
    {
      assert Limited(unary, UnaryExpression(tokens, d), d, first, |tokens|);
      if unary.Ok? {
        var tail := ExpressionTail(unary.value, unary.rest, d, minimum);
      }
    }
  }

  lemma OperandThenTail(tokens: seq<Token>, middle: seq<Token>, rest: seq<Token>, first: nat, more: nat)
    requires ScansUnary(tokens, middle, first) && ScansTail(middle, rest, more) && |rest| <= |middle|
    ensures ScansExpression(tokens, rest, Max(first, more))
  {
    hide Peak, Lift, Open;
    forall s: Scan | s.mode.Expecting? && s.pending == 0
      ensures Peak(s, tokens) == Peak(Lift(s, Max(first, more)), rest)
    {
      var after := Lift(s, first);
      LiftMore(s, first, more);
      assert Peak(s, tokens) == Peak(Lift(s, s.pending + first), middle);
      assert Peak(after, middle) == Peak(Lift(after, more), rest);
    }
  }

  /** The loop over what extends an expression. */
  lemma {:induction false} NestTail(left: Node, tokens: seq<Token>, e: int, minimum: nat) returns (need: nat)
    requires NoSuffix(tokens)
    ensures var wide := ExpressionTail(left, tokens, e, minimum);
      && (forall d: int {:trigger ExpressionTail(left, tokens, d, minimum)} | e <= d ::
            Limited(wide, ExpressionTail(left, tokens, d, minimum), d, need, |tokens|))
      && (wide.Ok? ==> ScansTail(tokens, wide.rest, need) && OfTail(left, tokens, e, minimum).frames == need)
    decreases |tokens|, 4
  {
    hide Expression, ExpressionTail, OfTail, ScansTail, Peak, TernaryTail;
    need := 0;
    TailUnfolds(left, tokens, e, minimum);
    TailCosts(left, tokens, e, minimum);
    if minimum == 0 && Starts(tokens, Question2) {
      need := NestElvis(left, tokens, e);
    } else if minimum == 0 && Starts(tokens, Question) {
      need := NestTernary(left, tokens, e);
    } else if PeekOperator(tokens).Some? && Precedence(PeekOperator(tokens).value) >= Floor(minimum) {
      need := NestOperator(left, tokens, e, minimum);
    } else {
      NothingScans(tokens);
      forall d: int | e <= d
        ensures ExpressionTail(left, tokens, d, minimum) == Ok(left, tokens)
      {
        TailUnfolds(left, tokens, d, minimum);
      }
    }
  }

  lemma NothingScans(tokens: seq<Token>)
    requires NoSuffix(tokens)
    ensures ScansTail(tokens, tokens, 0)
  {
    forall s: Scan | s.mode.Done? && s.pending == 0 && s.peak > Open(s.stack)
      ensures Peak(s, tokens) == Peak(Lift(s, 0), tokens)
    {
      assert Lift(s, 0) == s;
    }
  }

  /** One more operand behind a token that separates operands. */
  lemma OneMoreOperand(tokens: seq<Token>, middle: seq<Token>, rest: seq<Token>, first: nat, more: nat)
    requires tokens != [] && NoSuffix(tokens) && !IsClosing(tokens[0])
    requires ScansExpression(tokens[1..], middle, first) && ScansTail(middle, rest, more) && |rest| <= |middle|
    ensures ScansTail(tokens, rest, Max(first, more))
  {
    hide Peak, Lift, Open;
    forall s: Scan | s.mode.Done? && s.pending == 0 && s.peak > Open(s.stack)
      ensures Peak(s, tokens) == Peak(Lift(s, Max(first, more)), rest)
    {
      var next := s.(mode := Expecting);
      var after := Lift(s, first);
      PeakStep(s, tokens);
      LiftMore(s, first, first);
      LiftMore(s, first, more);
      assert Next(s, tokens) == next;
      assert Peak(next, tokens[1..]) == Peak(Lift(next, first), middle);
      assert Peak(after, middle) == Peak(Lift(after, more), rest);
    }
  }

  lemma {:induction false} NestElvis(left: Node, tokens: seq<Token>, e: int) returns (need: nat)
    requires Starts(tokens, Question2)
    ensures var wide := ExpressionTail(left, tokens, e, 0);
      && (forall d: int {:trigger ExpressionTail(left, tokens, d, 0)} | e <= d ::
            Limited(wide, ExpressionTail(left, tokens, d, 0), d, need, |tokens|))
      && (wide.Ok? ==> ScansTail(tokens, wide.rest, need) && OfTail(left, tokens, e, 0).frames == need)
    decreases |tokens|, 3
  {
    hide Expression, ExpressionTail, OfExpression, OfTail, OfOtherwise, ScansTail, Peak, TernaryTail;
    var first := NestExpression(tokens[1..], e, 0);
    var fallback := Expression(tokens[1..], e, 0);
    TailUnfolds(left, tokens, e, 0);
    TailCosts(left, tokens, e, 0);
    need := first;
    if fallback.Ok? {
      var larger := Elvis(left, fallback.value);
      var more := NestTail(larger, fallback.rest, e, 0);
      need := Max(first, more);
      if ExpressionTail(larger, fallback.rest, e, 0).Ok? {
        OneMoreOperand(tokens, fallback.rest, ExpressionTail(larger, fallback.rest, e, 0).rest, first, more);
      }
    }
    forall d: int | e <= d
      ensures Limited(ExpressionTail(left, tokens, e, 0), ExpressionTail(left, tokens, d, 0), d, need, |tokens|)
    {
      TailUnfolds(left, tokens, d, 0);
      assert Limited(fallback, Expression(tokens[1..], d, 0), d, first, |tokens| - 1);
      if fallback.Ok? {
        var tail := ExpressionTail(Elvis(left, fallback.value), fallback.rest, d, 0);
      }
    }
  }

  lemma {:induction false} NestOperator(left: Node, tokens: seq<Token>, e: int, minimum: nat) returns (need: nat)
    requires NoSuffix(tokens) && !(minimum == 0 && (Starts(tokens, Question2) || Starts(tokens, Question)))
    requires PeekOperator(tokens).Some? && Precedence(PeekOperator(tokens).value) >= Floor(minimum)
    ensures var wide := ExpressionTail(left, tokens, e, minimum);
      && (forall d: int {:trigger ExpressionTail(left, tokens, d, minimum)} | e <= d ::
            Limited(wide, ExpressionTail(left, tokens, d, minimum), d, need, |tokens|))
      && (wide.Ok? ==> ScansTail(tokens, wide.rest, need) && OfTail(left, tokens, e, minimum).frames == need)
    decreases |tokens|, 3
  {
    hide Expression, ExpressionTail, OfExpression, OfTail, OfOtherwise, ScansTail, Peak, TernaryTail;
    var operator := PeekOperator(tokens).value;
    var level := Precedence(operator) + 1;
    var first := NestExpression(tokens[1..], e, level);
    var right := Expression(tokens[1..], e, level);
    TailUnfolds(left, tokens, e, minimum);
    TailCosts(left, tokens, e, minimum);
    need := first;
    if right.Ok? {
      var larger := Binary(operator, left, right.value);
      var more := NestTail(larger, right.rest, e, minimum);
      need := Max(first, more);
      if ExpressionTail(larger, right.rest, e, minimum).Ok? {
        OneMoreOperand(tokens, right.rest, ExpressionTail(larger, right.rest, e, minimum).rest, first, more);
      }
    }
    forall d: int | e <= d
      ensures Limited(ExpressionTail(left, tokens, e, minimum), ExpressionTail(left, tokens, d, minimum),
                      d, need, |tokens|)
    {
      TailUnfolds(left, tokens, d, minimum);
      assert Limited(right, Expression(tokens[1..], d, level), d, first, |tokens| - 1);
      if right.Ok? {
        var tail := ExpressionTail(Binary(operator, left, right.value), right.rest, d, minimum);
      }
    }
  }

  lemma {:induction false} NestTernary(left: Node, tokens: seq<Token>, e: int) returns (need: nat)
    requires Starts(tokens, Question)
    ensures var wide := ExpressionTail(left, tokens, e, 0);
      && (forall d: int {:trigger ExpressionTail(left, tokens, d, 0)} | e <= d ::
            Limited(wide, ExpressionTail(left, tokens, d, 0), d, need, |tokens|))
      && (wide.Ok? ==> ScansTail(tokens, wide.rest, need) && OfTail(left, tokens, e, 0).frames == need)
    decreases |tokens|, 3
  {
    hide Expression, ExpressionTail, OfExpression, OfTail, OfOtherwise, ScansTail, Peak;
    var first := NestExpression(tokens[1..], e, 0);
    var then_ := Expression(tokens[1..], e, 0);
    TailUnfolds(left, tokens, e, 0);
    TailCosts(left, tokens, e, 0);
    need := first;
    if then_.Ok? && Starts(then_.rest, Colon) {
      var more := NestOtherwise(left, then_.value, then_.rest, e);
      need := Max(first, more);
      var tail := Otherwise(left, then_.value, then_.rest, e);
      if tail.Ok? {
        OneMoreOperand(tokens, then_.rest, tail.rest, first, more);
      }
    }
    forall d: int | e <= d
      ensures Limited(ExpressionTail(left, tokens, e, 0), ExpressionTail(left, tokens, d, 0), d, need, |tokens|)
    {
      TailUnfolds(left, tokens, d, 0);
      assert Limited(then_, Expression(tokens[1..], d, 0), d, first, |tokens| - 1);
      if then_.Ok? && Starts(then_.rest, Colon) {
        var tail := Otherwise(left, then_.value, then_.rest, d);
      }
    }
  }

  /** The second branch of a ternary, from the colon on, and what follows it. */
  function Otherwise(condition: Node, then_: Node, tokens: seq<Token>, d: int): Parsed<Node>
    requires Starts(tokens, Colon)
  {
    var otherwise := Expression(tokens[1..], d, 0);
    if otherwise.Err? then otherwise
    else ExpressionTail(Ternary(condition, then_, otherwise.value), otherwise.rest, d, 0)
  }

  lemma {:induction false} NestOtherwise(condition: Node, then_: Node, tokens: seq<Token>, e: int) returns (need: nat)
    requires Starts(tokens, Colon)
    ensures var wide := Otherwise(condition, then_, tokens, e);
      && (forall d: int {:trigger Otherwise(condition, then_, tokens, d)} | e <= d ::
            Limited(wide, Otherwise(condition, then_, tokens, d), d, need, |tokens|))
      && (wide.Ok? ==>
            && |wide.rest| <= |tokens| && ScansTail(tokens, wide.rest, need)
            && OfOtherwise(condition, then_, tokens[1..], e).frames == need)
    decreases |tokens|, 3
  {
    hide Expression, ExpressionTail, OfExpression, OfTail, ScansTail, Peak;
    var first := NestExpression(tokens[1..], e, 0);
    var otherwise := Expression(tokens[1..], e, 0);
    need := first;
    if otherwise.Ok? {
      var larger := Ternary(condition, then_, otherwise.value);
      var more := NestTail(larger, otherwise.rest, e, 0);
      need := Max(first, more);
      if ExpressionTail(larger, otherwise.rest, e, 0).Ok? {
        OneMoreOperand(tokens, otherwise.rest, ExpressionTail(larger, otherwise.rest, e, 0).rest, first, more);
      }
    }
    forall d: int | e <= d
      ensures Limited(Otherwise(condition, then_, tokens, e), Otherwise(condition, then_, tokens, d), d, need, |tokens|)
    {
      assert Limited(otherwise, Expression(tokens[1..], d, 0), d, first, |tokens| - 1);
      if otherwise.Ok? {
        var tail := ExpressionTail(Ternary(condition, then_, otherwise.value), otherwise.rest, d, 0);
      }
    }
  }

  // The limit, for every list of tokens.

  /** What a parser that starts at any depth makes of the tokens: it accepts them if and only if one without a
      limit does and the levels are there, and then as the same tree. */
  lemma LimitedExactly(tokens: seq<Token>, depth: int)
    ensures Unlimited(tokens).Ok? ==>
      ParseFrom(tokens, depth) == if depth + Nesting(tokens) <= MAX_NESTING then Unlimited(tokens) else Err(Syntax)
    ensures Unlimited(tokens).Err? ==> ParseFrom(tokens, depth) in {Err(Syntax), Unlimited(tokens)}
    ensures depth + |tokens| <= MAX_NESTING ==> ParseFrom(tokens, depth) == Unlimited(tokens)
  {
    hide Expression, ScansExpression, Peak;
    var low := -|tokens|;
    var lowest := if depth < low then depth else low;
    var need := NestExpression(tokens, lowest, 0);
    var wide := Expression(tokens, lowest, 0);
    assert Limited(wide, Expression(tokens, low, 0), low, need, |tokens|);
    assert Limited(wide, Expression(tokens, depth, 0), depth, need, |tokens|);
    if wide.Ok? {
      ExpressionIsLonger(tokens, wide.rest, need);
      if wide.rest == [] {
        NeedIsNesting(tokens, need);
      }
    }
  }

  lemma NeedIsNesting(tokens: seq<Token>, need: nat)
    requires ScansExpression(tokens, [], need)
    ensures Nesting(tokens) == need
  {
    assert Peak(START, tokens) == Peak(Lift(START, need), []);
  }

  /** The levels that are used are as many as the tokens nest. */
  lemma FramesAreNesting(tokens: seq<Token>)
    requires Parse(tokens).Ok?
    ensures OfExpression(tokens, 0, 0).frames == Nesting(tokens)
  {
    hide Expression, OfExpression, ScansExpression, Peak;
    var need := NestExpression(tokens, 0, 0);
    NeedIsNesting(tokens, need);
  }

  /** The levels of the source, from the start. */
  lemma AcceptedExactly(tokens: seq<Token>)
    ensures Parse(tokens).Ok? <==> Unlimited(tokens).Ok? && Nesting(tokens) <= MAX_NESTING
    ensures Parse(tokens).Ok? ==> Parse(tokens) == Unlimited(tokens)
    ensures Unlimited(tokens).Ok? && Nesting(tokens) > MAX_NESTING ==> Parse(tokens) == Err(Syntax)
  {
    hide Expression, Peak;
    LimitedExactly(tokens, 0);
  }
}
