/**
 Templates: text with embedded `#{...}` expressions (crates/spel/src/template.rs, lib.rs).
 */
module SpelTemplate {
  import opened Wrappers

  datatype Part = Text(text: string) | Expression(source: string)

  function Shift(n: nat, r: Option<nat>): Option<nat> {
    match r
    case None => None
    case Some(k) => Some(n + k)
  }

  /** The state of the brace scanner: the nesting, and the quote that is open. */
  datatype Scan = Scan(depth: nat, quote: Option<char>)

  /** One character; None if it is the closing brace. */
  function Advance(scan: Scan, c: char): Option<Scan> {
    match scan.quote
    case Some(active) => Some(if c == active then scan.(quote := None) else scan)
    case None =>
      if c == '\'' || c == '"' then Some(scan.(quote := Some(c)))
      else if c == '{' then Some(scan.(depth := scan.depth + 1))
      else if c == '}' then
        if scan.depth == 0 then None else Some(scan.(depth := scan.depth - 1))
      else Some(scan)
  }

  const START := Scan(0, None)

  /** The offset of the brace that closes an expression. */
  function ClosingBrace(s: string, scan: Scan): (r: Option<nat>)
    ensures r.Some? ==> r.value < |s| && s[r.value] == '}'
  {
    if s == "" then None else
    match Advance(scan, s[0])
    case None => Some(0)
    case Some(next) => Shift(1, ClosingBrace(s[1..], next))
  }

  predicate Opens(s: string) { |s| >= 2 && s[0] == '#' && s[1] == '{' }

  /** The offset of the first `#{`. */
  function FindOpening(s: string): (r: Option<nat>)
    ensures r.Some? ==> r.value + 2 <= |s| && Opens(s[r.value..])
  {
    if s == "" then None
    else if Opens(s) then Some(0)
    else Shift(1, FindOpening(s[1..]))
  }

  function TextPart(text: string): seq<Part> {
    if text == "" then [] else [Text(text)]
  }

  function Split(template: string): Option<seq<Part>>
    decreases |template|
  {
    match FindOpening(template)
    case None => Some(TextPart(template))
    case Some(start) =>
      var after := template[start + 2..];
      match ClosingBrace(after, START)
      case None => None
      case Some(end) => Found(TextPart(template[..start]) + [Expression(after[..end])], Split(after[end + 1..]))
  }

  /** The parts of a template of which `parts` have been found already. */
  function Found(parts: seq<Part>, left: Option<seq<Part>>): Option<seq<Part>> {
    if left.None? then None else Some(parts + left.value)
  }

  /* The loops of the original. */

  lemma ScanGoesOn(text: string, offset: nat, scan: Scan, next: Scan)
    requires offset < |text| && Advance(scan, text[offset]) == Some(next)
    ensures Shift(offset, ClosingBrace(text[offset..], scan))
        == Shift(offset + 1, ClosingBrace(text[offset + 1..], next))
  {
    hide Advance;
    assert text[offset..][1..] == text[offset + 1..] && text[offset..][0] == text[offset];
  }

  lemma ScanStops(text: string, offset: nat, scan: Scan)
    requires offset < |text| && Advance(scan, text[offset]) == None
    ensures Shift(offset, ClosingBrace(text[offset..], scan)) == Some(offset)
  {
    hide Advance;
  }

  lemma ScanEnds(text: string, scan: Scan)
    ensures Shift(0, ClosingBrace(text[0..], scan)) == ClosingBrace(text, scan)
    ensures Shift(|text|, ClosingBrace(text[|text|..], scan)) == None
  {
    assert text[0..] == text && text[|text|..] == "";
  }

  lemma AdvanceCases(depth: nat, quote: Option<char>, c: char)
    ensures Advance(Scan(depth, quote), c)
         == if quote.Some? then Some(Scan(depth, if quote == Some(c) then None else quote))
            else if c == '\'' || c == '"' then Some(Scan(depth, Some(c)))
            else if c == '{' then Some(Scan(depth + 1, None))
            else if c != '}' then Some(Scan(depth, None))
            else if depth == 0 then None
            else Some(Scan(depth - 1, None))
  {
  }

  method FindClosingBrace(text: string) returns (r: Option<nat>)
    ensures r == ClosingBrace(text, START)
  {
    var depth: nat := 0;
    var quote: Option<char> := None;
    hide ClosingBrace, Shift, Advance;
    ScanEnds(text, START);
    for offset := 0 to |text|
      invariant ClosingBrace(text, START) == Shift(offset, ClosingBrace(text[offset..], Scan(depth, quote)))
    {
      var character := text[offset];
      ghost var before := Scan(depth, quote);
      AdvanceCases(depth, quote, character);
      if quote.Some? {
        if quote == Some(character) {
          quote := None;
        }
      } else if character == '\'' || character == '"' {
        quote := Some(character);
      } else if character == '{' {
        depth := depth + 1;
      } else if character == '}' {
        if depth == 0 {
          ScanStops(text, offset, before);
          return Some(offset);
        }
        depth := depth - 1;
      }
      ScanGoesOn(text, offset, before, Scan(depth, quote));
    }
    ScanEnds(text, Scan(depth, quote));
    r := None;
  }

  method SplitTemplate(template: string) returns (r: Option<seq<Part>>)
    ensures r == Split(template)
  {
    var parts: seq<Part> := [];
    var rest := template;
    assert Found(parts, Split(template)) == Split(template) by {
      assert Split(template).Some? ==> [] + Split(template).value == Split(template).value;
    }
    while FindOpening(rest).Some?
      invariant Split(template) == Found(parts, Split(rest))
      decreases |rest|
    {
      var start := FindOpening(rest).value;
      ghost var before, whole := parts, rest;
      if start > 0 {
        parts := parts + [Text(rest[..start])];
      }
      var after := rest[start + 2..];
      var end := FindClosingBrace(after);
      if end.None? {
        return None;
      }
      parts := parts + [Expression(after[..end.value])];
      rest := after[end.value + 1..];
      assert Found(parts, Split(rest)) == Found(before, Split(whole)) by {
        FoundStep(before, whole[..start], after[..end.value], Split(rest));
      }
    }
    ghost var before := parts;
    if rest != "" {
      parts := parts + [Text(rest)];
    }
    assert parts == before + TextPart(rest);
    r := Some(parts);
  }

  lemma FoundStep(before: seq<Part>, text: string, source: string, left: Option<seq<Part>>)
    ensures Found((if text == "" then before else before + [Text(text)]) + [Expression(source)], left)
         == Found(before, Found(TextPart(text) + [Expression(source)], left))
  {
    if left.Some? {
      assert (before + TextPart(text)) + [Expression(source)] + left.value
          == before + (TextPart(text) + [Expression(source)] + left.value);
      assert text == "" ==> before + TextPart(text) == before;
    }
  }

  /** Putting two texts together makes an opening that neither has. */
  predicate SeamOpens(left: string, right: string) {
    left != "" && right != "" && left[|left| - 1] == '#' && right[0] == '{'
  }

  /* Splitting and gluing are inverse. */

  function Glue(parts: seq<Part>): string {
    if parts == [] then ""
    else (match parts[0]
          case Text(text) => text
          case Expression(source) => "#{" + source + "}") + Glue(parts[1..])
  }

  /** The scanner takes exactly `source` to be an expression. */
  predicate IsExpressionPart(source: string) {
    ClosingBrace(source + "}", START) == Some(|source|)
  }

  predicate IsPart(part: Part) {
    match part
    case Text(text) => text != "" && FindOpening(text).None?
    case Expression(source) => IsExpressionPart(source)
  }

  /** What `Split` can yield: no two texts next to each other. */
  predicate IsSplit(parts: seq<Part>) {
    && (forall i :: 0 <= i < |parts| ==> IsPart(parts[i]))
    && (forall i :: 0 <= i < |parts| - 1 ==> parts[i].Expression? || parts[i + 1].Expression?)
  }

  /** Only the text up to the closing brace matters. */
  lemma {:induction false} ClosingBracePrefix(s: string, tail: string, scan: Scan)
    requires ClosingBrace(s, scan).Some?
    ensures var n := ClosingBrace(s, scan);
            ClosingBrace(s + tail, scan) == n == ClosingBrace(s[..n.value + 1], scan)
  {
    var n := ClosingBrace(s, scan).value;
    assert (s + tail)[1..] == s[1..] + tail;
    if Advance(scan, s[0]).Some? {
      ClosingBracePrefix(s[1..], tail, Advance(scan, s[0]).value);
      assert s[..n + 1][1..] == s[1..][..n];
    }
  }

  lemma OneOpensNothing(s: string)
    requires s != ""
    ensures !Opens(s[..1]) && s[..1][1..] == ""
  {
  }

  lemma OpensAppend(s: string, tail: string)
    requires |s| >= 2
    ensures Opens(s + tail) == Opens(s)
  {
  }

  lemma NothingOpens(text: string, tail: string)
    requires text != "" && !Opens(text) && !SeamOpens(text, tail)
    ensures !Opens(text + tail)
  {
    if |text| >= 2 {
      OpensAppend(text, tail);
    }
  }

  /** A text with no opening, before a text that does not make one at the seam. */
  lemma {:induction false} FindOpeningAfter(text: string, tail: string)
    requires FindOpening(text).None? && !SeamOpens(text, tail)
    ensures FindOpening(text + tail) == Shift(|text|, FindOpening(tail))
  {
    if text == "" {
      assert text + tail == tail;
    } else {
      assert (text + tail)[1..] == text[1..] + tail;
      FindOpeningAfter(text[1..], tail);
      NothingOpens(text, tail);
    }
  }

  lemma {:induction false} FindOpeningPrefix(s: string, tail: string)
    requires FindOpening(s).Some?
    ensures FindOpening(s + tail) == FindOpening(s)
    ensures FindOpening(s[..FindOpening(s).value]).None?
  {
    hide Opens;
    var k := FindOpening(s).value;
    OpensAppend(s, tail);
    OneOpensNothing(s);
    if k > 0 {
      assert (s + tail)[1..] == s[1..] + tail && (s + tail)[0] == s[0];
      assert s[..k][1..] == s[1..][..k - 1];
      FindOpeningPrefix(s[1..], tail);
      if k >= 2 {
        OpensAppend(s[..k], s[k..]);
        assert s[..k] + s[k..] == s;
      }
    }
  }

  /** A text, an expression and the rest of a template. */
  function Template(text: string, source: string, rest: string): string {
    text + ("#{" + (source + ("}" + rest)))
  }

  lemma TemplateSlices(text: string, source: string, rest: string)
    ensures var t := Template(text, source, rest);
            && t[..|text|] == text
            && t[|text| + 2..] == (source + "}") + rest
            && ((source + "}") + rest)[..|source|] == source
            && ((source + "}") + rest)[|source| + 1..] == rest
  {
    var tail := source + ("}" + rest);
    assert Template(text, source, rest)[|text| + 2..] == tail;
    assert tail == (source + "}") + rest;
  }

  lemma SplitExpression(text: string, source: string, rest: string)
    requires FindOpening(text).None? && IsExpressionPart(source)
    ensures Split(Template(text, source, rest)) == Found(TextPart(text) + [Expression(source)], Split(rest))
  {
    hide ClosingBrace, FindOpening, Split;
    OpensAtOnce(source + ("}" + rest));
    FindOpeningAfter(text, "#{" + (source + ("}" + rest)));
    ClosingBracePrefix(source + "}", rest, START);
    TemplateSlices(text, source, rest);
    SplitAt(Template(text, source, rest), |text|, |source|);
  }

  lemma OpensAtOnce(tail: string)
    ensures FindOpening("#{" + tail) == Some(0)
  {
  }

  /** The parts of a template up to the end of its first expression. */
  lemma SplitAt(template: string, start: nat, end: nat)
    requires FindOpening(template) == Some(start) && start + 2 <= |template|
    requires ClosingBrace(template[start + 2..], START) == Some(end)
    ensures var after := template[start + 2..];
      Split(template) == Found(TextPart(template[..start]) + [Expression(after[..end])], Split(after[end + 1..]))
  {
    hide ClosingBrace, FindOpening, Found, TextPart;
  }

  lemma GlueExpression(text: string, source: string, parts: seq<Part>)
    ensures Glue(TextPart(text) + [Expression(source)] + parts) == Template(text, source, Glue(parts))
  {
    var tail := [Expression(source)] + parts;
    assert tail[1..] == parts;
    assert Glue(tail) == "#{" + (source + ("}" + Glue(parts)));
    if text == "" {
      assert TextPart(text) + [Expression(source)] + parts == tail;
      assert Template(text, source, Glue(parts)) == Glue(tail);
    } else {
      var all := [Text(text)] + tail;
      assert TextPart(text) + [Expression(source)] + parts == all && all[1..] == tail;
    }
  }

  lemma GlueText(text: string)
    ensures Glue(TextPart(text)) == text
  {
    if text != "" {
      assert TextPart(text)[1..] == [];
      assert text + "" == text;
    }
  }

  /** What a successful split looks like from its first opening. */
  lemma SplitUnfolds(template: string)
    requires Split(template).Some? && FindOpening(template).Some?
    ensures var start := FindOpening(template).value;
      var after := template[start + 2..];
      && ClosingBrace(after, START).Some?
      && var end := ClosingBrace(after, START).value;
      && Split(after[end + 1..]).Some?
      && Split(template) == Found(TextPart(template[..start]) + [Expression(after[..end])], Split(after[end + 1..]))
  {
    hide ClosingBrace, FindOpening, TextPart;
  }

  lemma SplitShape(template: string) returns (text: string, source: string, rest: string)
    requires Split(template).Some? && FindOpening(template).Some?
    ensures template == Template(text, source, rest)
    ensures FindOpening(text).None? && IsExpressionPart(source) && |rest| < |template|
    ensures Split(rest).Some? && Split(template) == Found(TextPart(text) + [Expression(source)], Split(rest))
  {
    hide ClosingBrace, FindOpening, Template, Split;
    SplitUnfolds(template);
    var start := FindOpening(template).value;
    var after := template[start + 2..];
    var end := ClosingBrace(after, START).value;
    text, source, rest := template[..start], after[..end], after[end + 1..];
    ClosingBracePrefix(after, "", START);
    assert after[..end + 1] == source + "}";
    FindOpeningPrefix(template, "");
    TemplateWhole(template, start, end);
  }

  lemma TemplateWhole(template: string, start: nat, end: nat)
    requires start + 2 <= |template| && template[start] == '#' && template[start + 1] == '{'
    requires start + 2 + end < |template| && template[start + 2 + end] == '}'
    ensures var after := template[start + 2..];
            template == Template(template[..start], after[..end], after[end + 1..])
  {
    var after := template[start + 2..];
    assert after == after[..end] + ("}" + after[end + 1..]);
    assert template == template[..start] + ("#{" + after);
  }

  lemma IsSplitPrepend(text: string, source: string, parts: seq<Part>)
    requires FindOpening(text).None? && IsExpressionPart(source) && IsSplit(parts)
    ensures IsSplit(TextPart(text) + [Expression(source)] + parts)
  {
  }

  /** Splitting loses nothing: the parts glue back to the template. */
  lemma {:induction false} SplitIsLossless(template: string)
    requires Split(template).Some?
    ensures Glue(Split(template).value) == template && IsSplit(Split(template).value)
    decreases |template|
  {
    hide Split, Glue, IsSplit, Template;
    if FindOpening(template).None? {
      GlueText(template);
      TextIsSplit(template);
      SplitText(template);
    } else {
      var text, source, rest := SplitShape(template);
      SplitIsLossless(rest);
      GlueExpression(text, source, Split(rest).value);
      IsSplitPrepend(text, source, Split(rest).value);
    }
  }

  lemma TextIsSplit(text: string)
    requires FindOpening(text).None?
    ensures IsSplit(TextPart(text))
  {
  }

  /** Gluing loses nothing: the template splits back into the parts. */
  lemma {:induction false} SplitInvertsGlue(parts: seq<Part>)
    requires IsSplit(parts)
    ensures Split(Glue(parts)) == Some(parts)
  {
    hide Split, ClosingBrace, Glue;
    if parts == [] {
      SplitText("");
      GlueText("");
    } else if parts[0].Expression? {
      SplitInvertsGlue(parts[1..]);
      SplitGlued("", parts[0].source, parts[1..]);
      assert TextPart("") + [parts[0]] + parts[1..] == parts;
    } else if |parts| == 1 {
      GlueText(parts[0].text);
      SplitText(parts[0].text);
      assert TextPart(parts[0].text) == parts;
    } else {
      SplitInvertsGlue(parts[2..]);
      SplitGlued(parts[0].text, parts[1].source, parts[2..]);
      assert TextPart(parts[0].text) + [parts[1]] + parts[2..] == parts;
    }
  }

  lemma SplitText(text: string)
    requires FindOpening(text).None?
    ensures Split(text) == Some(TextPart(text))
  {
  }

  lemma SplitGlued(text: string, source: string, parts: seq<Part>)
    requires FindOpening(text).None? && IsExpressionPart(source)
    requires Split(Glue(parts)) == Some(parts)
    ensures var all := TextPart(text) + [Expression(source)] + parts; Split(Glue(all)) == Some(all)
  {
    hide Split, Glue, ClosingBrace;
    GlueExpression(text, source, parts);
    SplitExpression(text, source, Glue(parts));
  }

  /* Evaluating a template. */

  /** The parts of two templates put together: a text at the seam is one text. */
  function JoinParts(left: seq<Part>, right: seq<Part>): seq<Part> {
    if left != [] && right != [] && left[|left| - 1].Text? && right[0].Text? then
      left[..|left| - 1] + [Text(left[|left| - 1].text + right[0].text)] + right[1..]
    else left + right
  }

  lemma {:induction false} SplitConcat(left: string, right: string)
    requires Split(left).Some? && Split(right).Some? && !SeamOpens(left, right)
    ensures Split(left + right) == Some(JoinParts(Split(left).value, Split(right).value))
    decreases |left|
  {
    hide Split, JoinParts, IsExpressionPart, Template;
    if FindOpening(left).None? {
      SplitText(left);
      SplitTextConcat(left, right);
    } else {
      var text, source, rest := SplitShape(left);
      TemplateAppend(text, source, rest, right);
      SplitConcat(rest, right);
      SplitExpression(text, source, rest + right);
      JoinAfter(TextPart(text) + [Expression(source)], Split(rest).value, Split(right).value);
    }
  }

  lemma TemplateAppend(text: string, source: string, rest: string, more: string)
    ensures Template(text, source, rest) + more == Template(text, source, rest + more)
    ensures |rest| < |Template(text, source, rest)|
    ensures SeamOpens(rest, more) ==> SeamOpens(Template(text, source, rest), more)
  {
  }

  lemma JoinAfter(prefix: seq<Part>, left: seq<Part>, right: seq<Part>)
    requires prefix != [] && prefix[|prefix| - 1].Expression?
    ensures JoinParts(prefix + left, right) == prefix + JoinParts(left, right)
  {
    hide JoinParts;
    var all := prefix + left;
    if left != [] && right != [] && left[|left| - 1].Text? && right[0].Text? {
      var init, a, b, rest := left[..|left| - 1], left[|left| - 1].text, right[0].text, right[1..];
      assert left == init + [Text(a)] && right == [Text(b)] + rest;
      JoinSeam(init, a, b, rest);
      JoinSeam(prefix + init, a, b, rest);
      Regroup(prefix, init, [Text(a)]);
      RegroupSeam(prefix, init, [Text(a + b)], rest);
    } else {
      assert all[|all| - 1] == if left == [] then prefix[|prefix| - 1] else left[|left| - 1];
      JoinPlain(left, right);
      JoinPlain(all, right);
      Regroup(prefix, left, right);
    }
  }

  lemma JoinSeam(init: seq<Part>, a: string, b: string, rest: seq<Part>)
    ensures JoinParts(init + [Text(a)], [Text(b)] + rest) == init + [Text(a + b)] + rest
  {
    assert (init + [Text(a)])[..|init|] == init && ([Text(b)] + rest)[1..] == rest;
  }

  lemma JoinPlain(left: seq<Part>, right: seq<Part>)
    requires left == [] || right == [] || left[|left| - 1].Expression? || right[0].Expression?
    ensures JoinParts(left, right) == left + right
  {
  }

  lemma RegroupSeam(a: seq<Part>, b: seq<Part>, c: seq<Part>, d: seq<Part>)
    ensures (a + b) + c + d == a + (b + c + d)
  {
  }

  lemma SplitTextConcat(left: string, right: string)
    requires FindOpening(left).None? && Split(right).Some? && !SeamOpens(left, right)
    ensures Split(left + right) == Some(JoinParts(TextPart(left), Split(right).value))
  {
    hide Split, JoinParts, IsExpressionPart, Template;
    if FindOpening(right).None? {
      FindOpeningAfter(left, right);
      SplitText(left + right);
      SplitText(right);
      JoinTexts(left, right, []);
      assert forall ps: seq<Part> :: ps + [] == ps;
    } else {
      var text, source, rest := SplitShape(right);
      var parts := [Expression(source)] + Split(rest).value;
      TextBefore(left, text, source, rest);
      FindOpeningAfter(left, text);
      SplitExpression(left + text, source, rest);
      JoinTexts(left, text, parts);
      Regroup(TextPart(text), [Expression(source)], Split(rest).value);
      Regroup(TextPart(left + text), [Expression(source)], Split(rest).value);
    }
  }

  lemma Regroup(a: seq<Part>, b: seq<Part>, c: seq<Part>)
    ensures a + b + c == a + (b + c)
  {
  }

  lemma TextBefore(left: string, text: string, source: string, rest: string)
    ensures left + Template(text, source, rest) == Template(left + text, source, rest)
    ensures SeamOpens(left, text) ==> SeamOpens(left, Template(text, source, rest))
  {
  }

  lemma JoinTexts(left: string, text: string, parts: seq<Part>)
    requires parts != [] ==> parts[0].Expression?
    ensures JoinParts(TextPart(left), TextPart(text) + parts) == TextPart(left + text) + parts
  {
    if left == "" {
      assert left + text == text;
    } else if text == "" {
      assert left + text == left && TextPart(text) + parts == parts;
      assert parts == [] ==> TextPart(left) + parts == TextPart(left);
    } else {
      assert ([Text(text)] + parts)[1..] == parts;
      assert TextPart(left)[..0] == [];
    }
  }

  function Append(left: Option<string>, right: Option<string>): Option<string> {
    if left.None? || right.None? then None else Some(left.value + right.value)
  }

  /** `evaluate_template` after splitting; `evaluate` is `evaluate_part` followed by display. */
  function EvaluateParts(parts: seq<Part>, evaluate: string -> Option<string>): Option<string> {
    if parts == [] then Some("")
    else Append(match parts[0]
                case Text(text) => Some(text)
                case Expression(source) => evaluate(source),
                EvaluateParts(parts[1..], evaluate))
  }

  function EvaluateTemplate(template: string, evaluate: string -> Option<string>): Option<string> {
    if FindOpening(template).None? then Some(template) else
    match Split(template)
    case None => None
    case Some(parts) => EvaluateParts(parts, evaluate)
  }

  /** The loop of `evaluate_template`. */
  method EvaluateLoop(template: string, evaluate: string -> Option<string>) returns (r: Option<string>)
    ensures r == EvaluateTemplate(template, evaluate)
  {
    if FindOpening(template).None? {
      return Some(template);
    }
    var split := SplitTemplate(template);
    if split.None? {
      return None;
    }
    var parts := split.value;
    var result := "";
    assert parts[0..] == parts;
    EvaluateAppend(Some(""), EvaluateParts(parts, evaluate));
    for i := 0 to |parts|
      invariant EvaluateParts(parts, evaluate) == Append(Some(result), EvaluateParts(parts[i..], evaluate))
    {
      var value := match parts[i] case Text(text) => Some(text) case Expression(source) => evaluate(source);
      assert parts[i..][1..] == parts[i + 1..];
      if value.None? {
        return None;
      }
      AppendTwice(result, value.value, EvaluateParts(parts[i + 1..], evaluate));
      result := result + value.value;
    }
    assert result + "" == result;
    r := Some(result);
  }

  lemma AppendTwice(a: string, b: string, c: Option<string>)
    ensures Append(Some(a), Append(Some(b), c)) == Append(Some(a + b), c)
  {
    if c.Some? {
      assert a + (b + c.value) == (a + b) + c.value;
    }
  }

  lemma EvaluateAppend(empty: Option<string>, r: Option<string>)
    requires empty == Some("")
    ensures Append(empty, r) == r && Append(r, empty) == r
  {
    if r.Some? {
      assert "" + r.value == r.value && r.value + "" == r.value;
    }
  }

  lemma {:induction false} EvaluatePartsConcat(left: seq<Part>, right: seq<Part>, evaluate: string -> Option<string>)
    ensures EvaluateParts(left + right, evaluate)
         == Append(EvaluateParts(left, evaluate), EvaluateParts(right, evaluate))
  {
    if left == [] {
      assert left + right == right;
      EvaluateAppend(Some(""), EvaluateParts(right, evaluate));
    } else {
      assert (left + right)[1..] == left[1..] + right;
      EvaluatePartsConcat(left[1..], right, evaluate);
      var first := match left[0] case Text(text) => Some(text) case Expression(source) => evaluate(source);
      if first.Some? && EvaluateParts(left[1..], evaluate).Some? {
        AppendTwice(first.value, EvaluateParts(left[1..], evaluate).value, EvaluateParts(right, evaluate));
      }
    }
  }

  lemma EvaluateText(text: string, evaluate: string -> Option<string>)
    ensures EvaluateParts([Text(text)], evaluate) == Some(text)
  {
    assert [Text(text)][1..] == [];
    assert text + "" == text;
  }

  lemma EvaluateJoin(left: seq<Part>, right: seq<Part>, evaluate: string -> Option<string>)
    ensures EvaluateParts(JoinParts(left, right), evaluate) == EvaluateParts(left + right, evaluate)
  {
    hide EvaluateParts;
    if left != [] && right != [] && left[|left| - 1].Text? && right[0].Text? {
      var init, a, b, tail := left[..|left| - 1], left[|left| - 1].text, right[0].text, right[1..];
      SeamShape(left, right);
      Regroup(init, [Text(a + b)], tail);
      EvaluatePartsConcat(init, [Text(a), Text(b)] + tail, evaluate);
      EvaluatePartsConcat(init, [Text(a + b)] + tail, evaluate);
      EvaluatePartsConcat([Text(a), Text(b)], tail, evaluate);
      EvaluatePartsConcat([Text(a + b)], tail, evaluate);
      EvaluateTexts(a, b, evaluate);
      EvaluateText(a + b, evaluate);
    }
  }

  lemma SeamShape(left: seq<Part>, right: seq<Part>)
    requires left != [] && right != []
    ensures left + right == left[..|left| - 1] + ([left[|left| - 1], right[0]] + right[1..])
  {
  }

  lemma EvaluateTexts(a: string, b: string, evaluate: string -> Option<string>)
    ensures EvaluateParts([Text(a), Text(b)], evaluate) == Some(a + b)
  {
    assert [Text(a), Text(b)][1..] == [Text(b)];
    EvaluateText(b, evaluate);
  }

  /** Text without an opening evaluates to itself, split or not. */
  lemma EvaluateSplit(template: string, evaluate: string -> Option<string>)
    requires Split(template).Some?
    ensures EvaluateTemplate(template, evaluate) == EvaluateParts(Split(template).value, evaluate)
  {
    if FindOpening(template).None? && template != "" {
      EvaluateText(template, evaluate);
    }
  }

  /** Evaluating a concatenation concatenates the evaluations, failures included. */
  lemma EvaluateConcat(left: string, right: string, evaluate: string -> Option<string>)
    requires Split(left).Some? && Split(right).Some? && !SeamOpens(left, right)
    ensures EvaluateTemplate(left + right, evaluate)
         == Append(EvaluateTemplate(left, evaluate), EvaluateTemplate(right, evaluate))
  {
    SplitConcat(left, right);
    EvaluateSplit(left, evaluate);
    EvaluateSplit(right, evaluate);
    EvaluateSplit(left + right, evaluate);
    EvaluateJoin(Split(left).value, Split(right).value, evaluate);
    EvaluatePartsConcat(Split(left).value, Split(right).value, evaluate);
  }
}
