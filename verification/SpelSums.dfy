/**
 Operators in a row (crates/spel/src/parser.rs, eval.rs): they do not nest in the parser, which reads them in a loop,
 but they do in the evaluator.
 */
module SpelSums {
  import opened Wrappers
  import opened SpelSyntax
  import opened SpelPrinter
  import opened SpelText
  import opened SpelNormalForm
  import opened SpelArithmetic
  import opened SpelFrontEnd
  import opened SpelInterpolation
  import SpelGrammar
  import V = SpelValue
  import E = SpelEvaluator

  /** `1 + 1 + ... + 1` with so many operators. */
  function Sum(count: nat): Node {
    if count == 0 then Int(1) else Binary(Add, Sum(count - 1), Int(1))
  }

  lemma {:induction false} SumMeasures(count: nat)
    ensures WellFormed(Sum(count)) && Frames(Sum(count), 0) == Frames(Sum(count), 5) == 1
  {
    hide Frames, WellFormed;
    OneMeasures();
    if count > 0 {
      SumMeasures(count - 1);
      MoreMeasures(Sum(count - 1));
    }
  }

  lemma OneMeasures()
    ensures WellFormed(Int(1)) && Frames(Int(1), 0) == Frames(Int(1), 5) == Frames(Int(1), 6) == 1
  {
  }

  lemma MoreMeasures(sum: Node)
    requires WellFormed(sum) && Frames(sum, 5) == 1 && WellFormed(Int(1)) && Frames(Int(1), 6) == 1
    ensures var more := Binary(Add, sum, Int(1));
      WellFormed(more) && Frames(more, 0) == Frames(more, 5) == 1
  {
    hide Frames, WellFormed;
    OperatorTree(sum, Add, Int(1));
    LooserFrames(Binary(Add, sum, Int(1)), 0);
  }

  lemma {:induction false} SumFrom(host: V.Host, count: nat, depth: nat)
    ensures E.Evaluate(host, Sum(count), None, depth, Some(64))
         == if depth + count <= 64 then V.Ok(V.Int(count + 1)) else V.Err(V.TooDeep)
  {
    if count > 0 {
      SumFrom(host, count - 1, depth + 1);
    }
  }

  /** A sum of ones is accepted whatever its length, and evaluated if it has no more than 64 operators. */
  lemma LongSumsAreTooDeep(host: V.Host, count: nat)
    ensures ParseText(Render(Print(Sum(count)))) == SpelGrammar.Ok(Sum(count), [])
    ensures EvaluateSource(host, Render(Print(Sum(count))))
         == if count <= 64 then Some(V.Int(count + 1)) else None
  {
    hide Sum, Frames, WellFormed, ParseText, Render, Print, E.Evaluate;
    SumMeasures(count);
    RoundTrip(Sum(count));
    SumFrom(host, count, 0);
  }
}
