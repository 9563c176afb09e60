/**
 Integer division, from the text of an expression to its value: the identity that ties quotient and
 remainder together (Java Language Specification, sections 15.17.2 and 15.17.3).
 */
module SpelArithmetic {
  import opened Wrappers
  import opened Wraparound
  import opened S = SpelSyntax
  import V = SpelValue
  import opened SpelValue
  import opened SpelEvaluator
  import opened SpelPrinter
  import opened SpelText
  import SpelTokens
  import G = SpelGrammar
  import SpelFrontEnd
  import opened SpelNormalForm

  /** The quotient is the exact one rounded towards zero; the remainder has the sign of the dividend. */
  lemma DivisionTruncates(a: int, b: int)
    requires b != 0
    ensures var q, r := TruncatedQuotient(a, b), TruncatedRemainder(a, b);
            && r == a - q * b
            && Magnitude(r) < Magnitude(b)
            && (r == 0 || (r < 0) == (a < 0))
            && Magnitude(q) * Magnitude(b) <= Magnitude(a)
            && (q != 0 ==> (q < 0) == ((a < 0) != (b < 0)))
  {
    var q, r := QuotientParts(Magnitude(a), Magnitude(b));
    Truncates(a, b, q, r);
  }

  lemma QuotientParts(n: nat, d: nat) returns (q: nat, r: nat)
    requires d > 0
    ensures q == n / d && n == q * d + r && r < d
  {
    q, r := n / d, n % d;
  }

  lemma SignedProducts(q: int, d: int)
    ensures (-q) * d == -(q * d) && q * (-d) == -(q * d) && (-q) * (-d) == q * d
  {
  }

  lemma Truncates(a: int, b: int, q: nat, r: nat)
    requires Magnitude(a) == q * Magnitude(b) + r && r < Magnitude(b)
    ensures var s: int := if (a < 0) == (b < 0) then q else -(q as int);
            && Magnitude(a - s * b) == r
            && (r == 0 || (a - s * b < 0) == (a < 0))
            && Magnitude(s) * Magnitude(b) <= Magnitude(a)
            && (s != 0 ==> (s < 0) == ((a < 0) != (b < 0)))
  {
    SignedProducts(q, b);
  }

  /** The one division that overflows. */
  lemma QuotientFits(a: Long, b: Long)
    requires b != 0
    ensures Wrap(TruncatedQuotient(a, b)) == TruncatedQuotient(a, b) <==> !(a == -TWO_63 && b == -1)
  {
    DivisionTruncates(a, b);
    var q := TruncatedQuotient(a, b);
    if b == 1 || b == -1 {
      assert q * b == (if b == 1 then q else -q);
    } else {
      assert Magnitude(b) >= 2;
      AtMostHalf(Magnitude(q), Magnitude(b));
    }
  }

  lemma AtMostHalf(q: nat, b: nat)
    requires b >= 2
    ensures 2 * q <= q * b
  {
  }

  /** Quotient times divisor plus remainder is the dividend, all in wrapping arithmetic. */
  lemma DivisionIdentity(x: Long, y: Long)
    requires y != 0
    ensures Wrap(Wrap(Wrap(TruncatedQuotient(x, y)) * y) + Wrap(TruncatedRemainder(x, y))) == x
  {
    var q, r := TruncatedQuotient(x, y), TruncatedRemainder(x, y);
    DivisionTruncates(x, y);
    WrappedSummand(Wrap(r), Wrap(q) * y, TWO_63);
    WrappedTwice(q, y, r, TWO_63);
  }

  const EXPRESSION: string := "x / y * y + x % y"

  /** The tree the expression is meant to denote. */
  function Identity(): Node {
    Binary(Add,
           Binary(Multiply, Binary(Divide, Root("x"), Root("y")), Root("y")),
           Binary(Modulo, Root("x"), Root("y")))
  }

  lemma IdentityPrints()
    ensures Render(Print(Identity())) == EXPRESSION
  {
    hide Render, Print;
    PrintSteps();
    RenderSteps();
  }

  lemma IdentityIsShallow()
    ensures WellFormed(Identity()) && Frames(Identity(), 0) == 1
  {
    hide WellFormed, Frames;
    var x, y := Root("x"), Root("y");
    var q, p, r := Binary(Divide, x, y), Binary(Multiply, Binary(Divide, x, y), y), Binary(Modulo, x, y);
    LeafIsShallow("x");
    LeafIsShallow("y");
    OperatorTree(x, Divide, y);
    OperatorTree(q, Multiply, y);
    OperatorTree(x, Modulo, y);
    OperatorTree(p, Add, r);
    LooserFrames(p, 5);
    LooserFrames(Identity(), 0);
  }

  lemma LeafIsShallow(name: string)
    requires SpelTokens.IsName(name) && !IsReserved(name)
    ensures WellFormed(Root(name))
    ensures Frames(Root(name), 5) == Frames(Root(name), 6) == Frames(Root(name), 7) == 1
  {
  }

  lemma LooserFrames(node: Node, minimum: nat)
    requires minimum <= Level(node)
    ensures Frames(node, minimum) == Frames(node, Level(node))
  {
  }

  lemma PrintSteps()
    ensures Print(Identity()) == [Identifier("x"), Symbol(Slash), Identifier("y"), Symbol(Star), Identifier("y"),
                                  Symbol(Plus), Identifier("x"), Symbol(Percent), Identifier("y")]
  {
    hide PrintTo;
    var x, y := Root("x"), Root("y");
    var q, r := Binary(Divide, x, y), Binary(Modulo, x, y);
    var last := PrintsDivision("x", Modulo, "y", []);
    PrintsOperator(Binary(Multiply, q, y), Add, r, 0, []);
    var middle := [Symbol(Plus)] + last;
    PrintsOperator(q, Multiply, y, 5, middle);
    PrintsLeaf("y", 7, middle);
    var first := PrintsDivision("x", Divide, "y", [Symbol(Star)] + ([Identifier("y")] + middle));
  }

  lemma PrintsLeaf(name: string, minimum: nat, rest: seq<Token>)
    requires minimum <= 8
    ensures PrintTo(Root(name), minimum, rest) == [Identifier(name)] + rest
  {
  }

  lemma PrintsOperator(left: Node, operator: BinaryOperator, right: Node, minimum: nat, rest: seq<Token>)
    requires minimum <= Precedence(operator)
    ensures PrintTo(Binary(operator, left, right), minimum, rest)
         == PrintTo(left, Precedence(operator),
           [OperatorToken(operator)] + PrintTo(right, Precedence(operator) + 1, rest))
  {
    assert BareTo(Binary(operator, left, right), rest)
        == PrintTo(left, Precedence(operator),
          [OperatorToken(operator)] + PrintTo(right, Precedence(operator) + 1, rest));
  }

  lemma PrintsDivision(left: string, operator: BinaryOperator, right: string, rest: seq<Token>)
      returns (printed: seq<Token>)
    requires Precedence(operator) == 6
    ensures printed == [Identifier(left), OperatorToken(operator), Identifier(right)] + rest
    ensures PrintTo(Binary(operator, Root(left), Root(right)), 6, rest) == printed
  {
    hide PrintTo;
    PrintsOperator(Root(left), operator, Root(right), 6, rest);
    PrintsLeaf(right, 7, rest);
    PrintsLeaf(left, 6, [OperatorToken(operator)] + ([Identifier(right)] + rest));
    printed := [Identifier(left), OperatorToken(operator), Identifier(right)] + rest;
    assert printed == [Identifier(left)] + ([OperatorToken(operator)] + ([Identifier(right)] + rest));
  }

  lemma RenderMore(token: Token, rest: seq<Token>)
    requires rest != []
    ensures Render([token] + rest) == RenderToken(token) + " " + Render(rest)
  {
    assert ([token] + rest)[1..] == rest;
  }

  lemma RenderSteps()
    ensures Render([Identifier("x"), Symbol(Slash), Identifier("y"), Symbol(Star), Identifier("y"),
                    Symbol(Plus), Identifier("x"), Symbol(Percent), Identifier("y")]) == EXPRESSION
  {
    hide Render, RenderToken;
    var x, y := Identifier("x"), Identifier("y");
    TokenTexts();
    var t8 := [y];
    var t7 := [Symbol(Percent)] + t8;
    var t6 := [x] + t7;
    var t5 := [Symbol(Plus)] + t6;
    var t4 := [y] + t5;
    var t3 := [Symbol(Star)] + t4;
    var t2 := [y] + t3;
    var t1 := [Symbol(Slash)] + t2;
    RenderOne(y);
    RenderMore(Symbol(Percent), t8);
    RenderMore(x, t7);
    RenderMore(Symbol(Plus), t6);
    RenderMore(y, t5);
    RenderMore(Symbol(Star), t4);
    RenderMore(y, t3);
    RenderMore(Symbol(Slash), t2);
    RenderMore(x, t1);
    ListedOut(x, y);
    SpelledOut();
  }

  lemma TokenTexts()
    ensures RenderToken(Identifier("x")) == "x" && RenderToken(Identifier("y")) == "y"
    ensures RenderToken(Symbol(Slash)) == "/" && RenderToken(Symbol(Star)) == "*"
    ensures RenderToken(Symbol(Plus)) == "+" && RenderToken(Symbol(Percent)) == "%"
  {
  }

  lemma ListedOut(x: Token, y: Token)
    ensures [x] + ([Symbol(Slash)]
        + ([y] + ([Symbol(Star)] + ([y] + ([Symbol(Plus)] + ([x] + ([Symbol(Percent)] + [y])))))))
         == [x, Symbol(Slash), y, Symbol(Star), y, Symbol(Plus), x, Symbol(Percent), y]
  {
  }

  lemma SpelledOut()
    ensures "x" + " " + ("/" + " "
        + ("y" + " " + ("*" + " " + ("y" + " " + ("+" + " " + ("x" + " " + ("%" + " " + "y")))))))
         == EXPRESSION
  {
  }

  lemma RenderOne(token: Token)
    ensures Render([token]) == RenderToken(token)
  {
  }

  /** The text parses to the tree. */
  lemma IdentityParses()
    ensures SpelFrontEnd.ParseText(EXPRESSION) == G.Ok(Identity(), [])
  {
    hide Render, Print, Frames, WellFormed, SpelFrontEnd.ParseText;
    IdentityIsShallow();
    IdentityPrints();
    SpelFrontEnd.RoundTrip(Identity());
  }

  /**
   The whole pipeline: evaluating the text gives x, for all 64-bit x and all y but zero, the smallest
   number divided by -1 included; and a zero y is an evaluation error.
   */
  lemma IdentityEvaluates(host: Host, x: Long, y: Long)
    requires "x" in host.root && host.root["x"] == V.Int(x)
    requires "y" in host.root && host.root["y"] == V.Int(y)
    ensures var parsed := SpelFrontEnd.ParseText(EXPRESSION);
            && parsed.Ok?
            && Guarded(host, parsed.value, 0) == (if y == 0 then V.Err(EVALUATION) else Ok(V.Int(x)))
  {
    hide Evaluate, SpelFrontEnd.ParseText;
    IdentityParses();
    var nodeX, nodeY := Root("x"), Root("y");
    var quotient, product, remainder := Binary(Divide, nodeX, nodeY),
      Binary(Multiply, Binary(Divide, nodeX, nodeY), nodeY),
                                        Binary(Modulo, nodeX, nodeY);
    RootEvaluates(host, "x", x);
    RootEvaluates(host, "y", y);
    OperatorEvaluates(host, Divide, nodeX, nodeY, 2);
    OperatorEvaluates(host, Multiply, quotient, nodeY, 1);
    OperatorEvaluates(host, Modulo, nodeX, nodeY, 1);
    OperatorEvaluates(host, Add, product, remainder, 0);
    if y != 0 {
      DivisionIdentity(x, y);
    }
  }

  function Guarded(host: Host, node: Node, depth: nat): Outcome<Value> {
    Evaluate(host, node, None, depth, Some(MAX_DEPTH))
  }

  lemma RootEvaluates(host: Host, name: string, n: Long)
    requires name in host.root && host.root[name] == V.Int(n)
    ensures forall depth: nat :: depth <= MAX_DEPTH ==> Guarded(host, Root(name), depth) == Ok(V.Int(n))
  {
  }

  lemma OperatorEvaluates(host: Host, operator: BinaryOperator, left: Node, right: Node, depth: nat)
    requires operator in {Add, Subtract, Multiply, Divide, Modulo} && depth < MAX_DEPTH
    ensures var a, b := Guarded(host, left, depth + 1), Guarded(host, right, depth + 1);
            && (a.Err? ==> Guarded(host, Binary(operator, left, right), depth) == a)
            && (a.Ok? && a.value.Int? && b.Ok? && b.value.Int? ==>
                  Guarded(host, Binary(operator, left, right), depth)
                    == Arithmetic(operator, a.value.number, b.value.number))
  {
    hide Arithmetic, AsBool;
  }
}
