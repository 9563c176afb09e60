/**
 The two limits of the language: how deep the parser nests (crates/spel/src/parser.rs) and how deep the
 evaluator goes (crates/spel/src/eval.rs).
 */
module SpelLimits {
  import opened Naturals
  import opened Wrappers
  import opened SpelSyntax
  import opened SpelGrammar
  import opened SpelPrinter
  import opened SpelLexer
  import opened SpelText
  import opened SpelFrontEnd
  import opened SpelMeaning
  import V = SpelValue
  import E = SpelEvaluator

  /** A tree nests at most one deeper than it is high, and an operator not even that. */
  predicate Fits(node: Node) {
    BareFrames(node) <= Height(node) + if Level(node) < 7 then 0 else 1
  }

  lemma {:induction false} BareFramesFit(node: Node)
    ensures Fits(node)
    decreases node, 0
  {
    hide BareFrames, Height, Fits, Level;
    match node
    case Property(_, _, _) | Index(_, _) | Projection(_, _) | Selection(_, _) => SuffixFits(node);
    case Call(_, _, _, _) => CallFits(node);
    case Unary(_, _) | Binary(_, _, _) => OperatorFits(node);
    case Ternary(_, _, _) | Elvis(_, _) => ChoiceFits(node);
    case ListLiteral(_) | MapLiteral(_) => CollectionFits(node);
    case _ => LeafFits(node);
  }

  lemma {:induction false} SuffixFits(node: Node)
    requires node.Property? || node.Index? || node.Projection? || node.Selection?
    ensures Fits(node)
    decreases node, 0, 0
  {
    hide Frames;
    FramesFit(node.target, 8);
    if node.Index? {
      FramesFit(node.index, 0);
    } else if !node.Property? {
      FramesFit(node.body, 0);
    }
  }

  lemma {:induction false} CallFits(node: Node)
    requires node.Call?
    ensures Fits(node)
    decreases node, 0, 0
  {
    hide Frames, ItemsFrames, HeightAll;
    ItemsFramesFit(node.arguments);
    match node.receiver
    case Some(target) => FramesFit(target, 8);
    case None =>
  }

  lemma {:induction false} OperatorFits(node: Node)
    requires node.Unary? || node.Binary?
    ensures Fits(node)
    decreases node, 0, 0
  {
    hide Frames;
    match node
    case Unary(_, operand) => FramesFit(operand, 7);
    case Binary(operator, left, right) =>
      FramesFit(left, Precedence(operator));
      FramesFit(right, Precedence(operator) + 1);
  }

  lemma {:induction false} ChoiceFits(node: Node)
    requires node.Ternary? || node.Elvis?
    ensures Fits(node)
    decreases node, 0, 0
  {
    hide Frames, Height, BareFrames, Fits;
    match node
    case Ternary(condition, then_, otherwise) =>
      FramesFit(condition, 1);
      FramesFit(then_, 0);
      FramesFit(otherwise, 0);
      TernaryFits(condition, then_, otherwise);
    case Elvis(value, fallback) =>
      FramesFit(value, 1);
      FramesFit(fallback, 0);
      ElvisFits(value, fallback);
  }

  lemma TernaryFits(condition: Node, then_: Node, otherwise: Node)
    requires Frames(condition, 1) <= Height(condition) + 1
    requires Frames(then_, 0) <= Height(then_) + 1 && Frames(otherwise, 0) <= Height(otherwise) + 1
    ensures Fits(Ternary(condition, then_, otherwise))
  {
    hide Frames;
    var node := Ternary(condition, then_, otherwise);
    assert BareFrames(node) == Max(Frames(condition, 1), Max(Frames(then_, 0), Frames(otherwise, 0)));
    assert Height(node) == 1 + Max(Height(condition), Max(Height(then_), Height(otherwise)));
  }

  lemma ElvisFits(value: Node, fallback: Node)
    requires Frames(value, 1) <= Height(value) + 1 && Frames(fallback, 0) <= Height(fallback) + 1
    ensures Fits(Elvis(value, fallback))
  {
    hide Frames;
  }

  lemma {:induction false} CollectionFits(node: Node)
    requires node.ListLiteral? || node.MapLiteral?
    ensures Fits(node)
    decreases node, 0, 0
  {
    hide Frames, ItemsFrames, HeightAll, EntriesFrames, HeightEntries;
    if node.ListLiteral? {
      ItemsFramesFit(node.items);
    } else {
      EntriesFramesFit(node.entries);
    }
  }

  lemma LeafFits(node: Node)
    requires !node.Property? && !node.Index? && !node.Projection? && !node.Selection? && !node.Call?
    requires !node.Unary? && !node.Binary? && !node.Ternary? && !node.Elvis? && !node.ListLiteral? && !node.MapLiteral?
    ensures Fits(node)
  {
  }

  /** Parentheses cost one more frame, and only a unary operator in parentheses exceeds its height by two. */
  lemma {:induction false} FramesFit(node: Node, minimum: nat)
    requires minimum <= 8
    ensures minimum <= 7 ==> Frames(node, minimum) <= Height(node) + 1
    ensures Frames(node, minimum) <= Height(node) + 2
    decreases node, 1
  {
    BareFramesFit(node);
  }

  lemma {:induction false} ItemsFramesFit(items: seq<Node>)
    ensures ItemsFrames(items) <= HeightAll(items)
    decreases items, 2
  {
    if items != [] {
      FramesFit(items[0], 0);
      ItemsFramesFit(items[1..]);
    }
  }

  lemma {:induction false} EntriesFramesFit(entries: seq<Entry>)
    ensures EntriesFrames(entries) <= HeightEntries(entries)
    decreases entries, 2
  {
    if entries != [] {
      FramesFit(entries[0].value, 0);
      EntriesFramesFit(entries[1..]);
    }
  }

  /** What the evaluator accepts with one level to spare, the parser accepts as it is printed. */
  lemma ShallowIsAccepted(node: Node)
    requires WellFormed(node) && Height(node) < MAX_NESTING
    ensures ParseText(Render(Print(node))) == Ok(node, [])
  {
    hide Frames, Height, WellFormed, ParseText, Render, Print;
    FramesFit(node, 0);
    RoundTrip(node);
  }

  function Negated(count: nat): Node {
    if count == 0 then Int(1) else Unary(Negate, Negated(count - 1))
  }

  lemma {:induction false} NegatedMeasures(count: nat)
    ensures WellFormed(Negated(count)) && Height(Negated(count)) == count
    ensures Frames(Negated(count), 0) == Frames(Negated(count), 7) == count + 1
  {
    if count > 0 {
      NegatedMeasures(count - 1);
    }
  }

  /** A tree is what some text denotes exactly when it needs no more frames than there are. */
  lemma SomeTextExactly(node: Node)
    requires WellFormed(node)
    ensures (exists text :: ParseText(text) == Ok(node, [])) <==> Frames(node, 0) <= MAX_NESTING
  {
    hide Frames, WellFormed, Parse, Render, Print, Lex;
    RoundTrip(node);
    forall text | ParseText(text) == Ok(node, [])
      ensures Frames(node, 0) <= MAX_NESTING
    {
      ParsedIsSound(Lex(text).value);
    }
  }

  /** So many negations of a number are evaluated exactly if there are no more than 64. */
  lemma NegationsAreEvaluated(host: V.Host, count: nat)
    ensures E.Evaluate(host, Negated(count), None, 0, Some(E.MAX_DEPTH))
         == if count <= 64 then V.Ok(V.Int(if count % 2 == 0 then 1 else -1)) else V.Err(V.TooDeep)
  {
    hide Negated, E.Evaluate;
    NegationsFrom(host, count, 0);
  }

  lemma {:induction false} NegationsFrom(host: V.Host, count: nat, depth: nat)
    ensures E.Evaluate(host, Negated(count), None, depth, Some(64))
         == if depth + count <= 64 then V.Ok(V.Int(if count % 2 == 0 then 1 else -1)) else V.Err(V.TooDeep)
  {
    if count > 0 {
      NegationsFrom(host, count - 1, depth + 1);
    }
  }

  /** The level to spare is needed: 64 negations are within the evaluator's limit, and no text denotes them. */
  lemma NegationsAreRefused()
    ensures WellFormed(Negated(64)) && Height(Negated(64)) == 64
    ensures forall text :: ParseText(text) != Ok(Negated(64), [])
  {
    hide Frames, Height, WellFormed, ParseText, Render, Print, Negated;
    NegatedMeasures(64);
    SomeTextExactly(Negated(64));
  }
}
