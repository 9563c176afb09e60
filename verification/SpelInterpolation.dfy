/**
 Templates evaluated with the real parser and evaluator (crates/spel/src/lib.rs). An outcome of None is
 an error, whatever its kind.
 */
module SpelInterpolation {
  import opened Wrappers
  import V = SpelValue
  import E = SpelEvaluator
  import T = SpelTemplate
  import SpelFrontEnd

  /** `evaluate_part`. */
  function EvaluateSource(host: V.Host, source: string): Option<V.Value> {
    var parsed := SpelFrontEnd.ParseText(source);
    if parsed.Err? then None else
    match E.Evaluate(host, parsed.value, None, 0, Some(E.MAX_DEPTH))
    case Ok(value) => Some(value)
    case Err(_) => None
  }

  /** An expression as a part of a text. */
  function DisplaySource(host: V.Host): string -> Option<string> {
    source =>
      match EvaluateSource(host, source)
      case None => None
      case Some(value) => Some(host.display(value))
  }

  /** `evaluate_template_to_value`. */
  function EvaluateToValue(host: V.Host, template: string): Option<V.Value> {
    if T.FindOpening(template).None? then Some(V.Str(template)) else
    match T.Split(template)
    case None => None
    case Some(parts) =>
      if |parts| == 1 && parts[0].Expression? then EvaluateSource(host, parts[0].source)
      else
        match T.EvaluateTemplate(template, DisplaySource(host))
        case None => None
        case Some(text) => Some(V.Str(text))
  }

  /** A text without `#{` stands for itself. */
  lemma {:induction false} PlainText(host: V.Host, text: string)
    requires forall i | 0 <= i < |text| :: text[i] == '#' ==> i + 1 == |text| || text[i + 1] != '{'
    ensures T.FindOpening(text).None?
    ensures EvaluateToValue(host, text) == Some(V.Str(text))
  {
    if text != "" {
      PlainText(host, text[1..]);
    }
  }

  /** A template that is one accepted expression has the value of the expression, not its text. */
  lemma OneExpression(host: V.Host, expression: string)
    requires SpelFrontEnd.ParseText(expression).Ok?
    ensures EvaluateToValue(host, "#{" + expression + "}") == EvaluateSource(host, expression)
  {
    hide SpelFrontEnd.ParseText, T.Split, E.Evaluate, T.ClosingBrace;
    SpelFrontEnd.ScannersAgree(expression);
    var template := "#{" + expression + "}";
    assert T.Opens(template);
  }

  /** An accepted expression between texts: its display, between the texts. */
  lemma ExpressionInText(host: V.Host, before: string, expression: string, after: string)
    requires SpelFrontEnd.ParseText(expression).Ok?
    requires T.FindOpening(before).None? && T.FindOpening(after).None?
    ensures T.EvaluateTemplate(T.Template(before, expression, after), DisplaySource(host))
         == (match EvaluateSource(host, expression)
             case None => None
             case Some(value) => Some(before + host.display(value) + after))
    ensures before + after != "" ==>
      EvaluateToValue(host, T.Template(before, expression, after))
        == (match EvaluateSource(host, expression)
            case None => None
            case Some(value) => Some(V.Str(before + host.display(value) + after)))
  {
    hide SpelFrontEnd.ParseText, T.Split, E.Evaluate, T.ClosingBrace, EvaluateSource, T.Template, T.EvaluateTemplate;
    var evaluate := DisplaySource(host);
    SpelFrontEnd.ScannersAgree(expression);
    T.SplitExpression(before, expression, after);
    T.SplitText(after);
    TemplateOpens(before, expression, after);
    T.EvaluateSplit(T.Template(before, expression, after), evaluate);
    var part := T.Expression(expression);
    T.EvaluatePartsConcat(T.TextPart(before) + [part], T.TextPart(after), evaluate);
    T.EvaluatePartsConcat(T.TextPart(before), [part], evaluate);
    EvaluateTextPart(before, evaluate);
    EvaluateTextPart(after, evaluate);
    EvaluateOne(expression, evaluate);
  }

  lemma {:induction false} TemplateOpens(before: string, expression: string, after: string)
    ensures T.FindOpening(T.Template(before, expression, after)).Some?
  {
    if before != "" {
      var template := T.Template(before, expression, after);
      assert template[1..] == T.Template(before[1..], expression, after);
      TemplateOpens(before[1..], expression, after);
    }
  }

  lemma EvaluateTextPart(text: string, evaluate: string -> Option<string>)
    ensures T.EvaluateParts(T.TextPart(text), evaluate) == Some(text)
  {
    if text != "" {
      T.EvaluateText(text, evaluate);
    }
  }

  lemma EvaluateOne(source: string, evaluate: string -> Option<string>)
    ensures T.EvaluateParts([T.Expression(source)], evaluate) == evaluate(source)
  {
    assert [T.Expression(source)][1..] == [];
    T.EvaluateAppend(Some(""), evaluate(source));
  }
}
