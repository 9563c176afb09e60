/**
 The tokenizer (crates/spel/src/lexer.rs): what it makes of a text, as functions on the text that is
 left, and the loops over positions, proved to compute the same.

 The original reads bytes as characters outside string literals, so the model speaks about text whose
 characters outside string literals are ASCII.
 */
module SpelLexer {
  import opened Wrappers
  import opened Decimals
  import opened SpelSyntax
  import opened SpelTokens

  function Spelling(symbol: Punctuation): (s: string)
    ensures 1 <= |s| <= 3
  {
    match symbol
    case SafeDot => "?."
    case Question2 => "?:"
    case BangBracket => ".!["
    case QuestionBracket => ".?["
    case EqualEqual => "=="
    case BangEqual => "!="
    case LessEqual => "<="
    case GreaterEqual => ">="
    case AndAnd => "&&"
    case OrOr => "||"
    case Plus => "+"
    case Minus => "-"
    case Star => "*"
    case Slash => "/"
    case Percent => "%"
    case OpenParen => "("
    case CloseParen => ")"
    case OpenBracket => "["
    case CloseBracket => "]"
    case OpenBrace => "{"
    case CloseBrace => "}"
    case Comma => ","
    case Colon => ":"
    case Dot => "."
    case Question => "?"
    case Bang => "!"
    case LessThan => "<"
    case GreaterThan => ">"
  }

  /** Operators and punctuation in the order they are tried: longer ones before their prefixes. */
  const SYMBOLS: seq<Punctuation> := [
    SafeDot, Question2, BangBracket, QuestionBracket, EqualEqual, BangEqual, LessEqual, GreaterEqual,
    AndAnd, OrOr, Plus, Minus, Star, Slash, Percent, OpenParen, CloseParen, OpenBracket, CloseBracket,
    OpenBrace, CloseBrace, Comma, Colon, Dot, Question, Bang, LessThan, GreaterThan]

  function FirstSymbol(table: seq<Punctuation>, s: string): (r: Option<Punctuation>)
    ensures r.Some? ==> Spelling(r.value) <= s
  {
    if table == [] then None
    else if Spelling(table[0]) <= s then Some(table[0])
    else FirstSymbol(table[1..], s)
  }

  function WordLength(s: string): (n: nat)
    ensures n <= |s|
    ensures forall i :: 0 <= i < n ==> IsNamePart(s[i])
    ensures n < |s| ==> !IsNamePart(s[n])
  {
    if s == "" || !IsNamePart(s[0]) then 0 else 1 + WordLength(s[1..])
  }

  datatype NumberShape = NumberShape(end: nat, point: Option<nat>, long: bool)

  /** The scan of `read_number` from position `end`, with the position of the point seen so far. */
  function ScanNumber(s: string, end: nat, point: Option<nat>): (r: NumberShape)
    requires end <= |s|
    decreases |s| - end
    ensures end <= r.end <= |s| && (r.long ==> r.end < |s|)
    ensures point.Some? ==> r.point == point
    ensures point.None? && r.point.Some? ==>
      end <= r.point.value && r.point.value + 1 < r.end && s[r.point.value] == '.'
    ensures forall i :: end <= i < r.end && Some(i) != r.point ==> IsDigit(s[i])
  {
    if end == |s| then NumberShape(end, point, false)
    else if IsDigit(s[end]) then ScanNumber(s, end + 1, point)
    else if s[end] == '.' && point.None? && end + 1 < |s| && IsDigit(s[end + 1]) then
      ScanNumber(s, end + 1, Some(end))
    else NumberShape(end, point, s[end] == 'L' || s[end] == 'l')
  }

  /** The number token at the start of `s` and its length; None if it does not fit 64 bits. */
  function NumberToken(s: string): (r: Option<(Token, nat)>)
    requires s != "" && IsDigit(s[0])
    ensures r.Some? ==> 1 <= r.value.1 <= |s| && ValidToken(r.value.0)
  {
    var shape := ScanNumber(s, 0, None);
    if shape.point.Some? then
      if shape.long then None else
      assert IsFloat(s[..shape.end]) by {
        var text, p := s[..shape.end], shape.point.value;
        assert text[..p] == s[..p] && text[p + 1..] == s[p + 1..shape.end];
        assert AllDigits(text[..p]) && AllDigits(text[p + 1..]);
      }
      Some((FloatLiteral(s[..shape.end]), shape.end))
    else
      var value := Decimal(s[..shape.end]);
      if value >= INT_LIMIT then None
      else Some((IntLiteral(value), if shape.long then shape.end + 1 else shape.end))
  }

  /** The rest of a string literal: its value, and its length up to and including the closing quote. */
  function StringBody(s: string, quote: char): (r: Option<(string, nat)>)
    ensures r.Some? ==> 1 <= r.value.1 <= |s|
  {
    if s == "" then None
    else if s[0] != quote then
      match StringBody(s[1..], quote)
      case None => None
      case Some((value, length)) => Some(([s[0]] + value, length + 1))
    else if |s| > 1 && s[1] == quote then
      match StringBody(s[2..], quote)
      case None => None
      case Some((value, length)) => Some(([quote] + value, length + 2))
    else Some(("", 1))
  }

  lemma MarkedWord(s: string)
    requires s != ""
    ensures WordLength(s[1..]) > 0 ==> IsWord(s[1..WordLength(s[1..]) + 1])
  {
    assert s[1..][..WordLength(s[1..])] == s[1..WordLength(s[1..]) + 1];
  }

  lemma LeadingName(s: string)
    requires s != "" && IsNameStart(s[0])
    ensures WordLength(s) > 0 && IsName(s[..WordLength(s)])
  {
  }

  /** The token at the start of `s` and its length. */
  function FirstToken(s: string): (r: Option<(Token, nat)>)
    requires s != "" && !IsSpace(s[0])
    ensures r.Some? ==> 1 <= r.value.1 <= |s| && ValidToken(r.value.0)
  {
    var c := s[0];
    if c == '\'' || c == '"' then
      match StringBody(s[1..], c)
      case None => None
      case Some((value, length)) => Some((Text(value), length + 1))
    else if IsDigit(c) then NumberToken(s)
    else if c == '#' || c == '@' then
      var n := WordLength(s[1..]);
      if n == 0 then None else
      MarkedWord(s);
      Some((if c == '#' then VariableName(s[1..n + 1]) else BeanName(s[1..n + 1]), n + 1))
    else if IsNameStart(c) then
      LeadingName(s);
      Some((Identifier(s[..WordLength(s)]), WordLength(s)))
    else
      match FirstSymbol(SYMBOLS, s)
      case None => None
      case Some(symbol) => Some((Symbol(symbol), |Spelling(symbol)|))
  }

  function Prepend(token: Token, tokens: Option<seq<Token>>): Option<seq<Token>> {
    match tokens
    case None => None
    case Some(others) => Some([token] + others)
  }

  /** The tokens of a text; None for a syntax error. */
  function Lex(s: string): (r: Option<seq<Token>>)
    decreases |s|
    ensures r.Some? ==> ValidTokens(r.value)
  {
    if s == "" then Some([])
    else if IsSpace(s[0]) then Lex(s[1..])
    else
      match FirstToken(s)
      case None => None
      case Some((token, length)) => Prepend(token, Lex(s[length..]))
  }

  /* The loops of the original. */

  method ReadIdentifier(expression: string, start: nat) returns (name: string, end: nat)
    requires start <= |expression|
    ensures name == expression[start..][..WordLength(expression[start..])]
    ensures end == start + WordLength(expression[start..])
  {
    end := start;
    while end < |expression|
      invariant start <= end <= |expression|
      invariant end - start <= WordLength(expression[start..])
    {
      if IsNamePart(expression[end]) {
        end := end + 1;
      } else {
        break;
      }
    }
    name := expression[start..end];
  }

  lemma ScanStep(s: string, end: nat, point: Option<nat>)
    requires end < |s|
    ensures ScanNumber(s, end, point) ==
      if IsDigit(s[end]) then ScanNumber(s, end + 1, point)
      else if s[end] == '.' && point.None? && end + 1 < |s| && IsDigit(s[end + 1]) then
        ScanNumber(s, end + 1, Some(end))
      else NumberShape(end, point, s[end] == 'L' || s[end] == 'l')
  {
  }

  lemma ScanEnds(s: string, point: Option<nat>)
    ensures ScanNumber(s, |s|, point) == NumberShape(|s|, point, false)
  {
  }

  /** The token that a scan leads to. */
  lemma NumberOfShape(s: string, shape: NumberShape)
    requires s != "" && IsDigit(s[0]) && shape == ScanNumber(s, 0, None)
    ensures NumberToken(s) ==
      if shape.point.Some? then (if shape.long then None else Some((FloatLiteral(s[..shape.end]), shape.end)))
      else if Decimal(s[..shape.end]) >= INT_LIMIT then None
      else Some((IntLiteral(Decimal(s[..shape.end])), if shape.long then shape.end + 1 else shape.end))
  {
    hide Decimal, ScanNumber, ValidToken, IsFloat;
  }

  method ReadNumber(expression: string, start: nat) returns (r: Option<(Token, nat)>)
    requires start < |expression| && IsDigit(expression[start])
    ensures match NumberToken(expression[start..])
            case None => r == None
            case Some((token, length)) => r == Some((token, start + length))
  {
    hide Decimal, ValidToken, ScanNumber, NumberToken;
    ghost var s := expression[start..];
    var end := start;
    var point: Option<nat> := None;
    var long := false;
    while end < |expression|
      invariant start <= end <= |expression| && !long
      invariant ScanNumber(s, 0, None) == ScanNumber(s, end - start, point)
    {
      ScanStep(s, end - start, point);
      if IsDigit(expression[end]) {
        end := end + 1;
      } else if expression[end] == '.' && point.None? && end + 1 < |expression| && IsDigit(expression[end + 1]) {
        point := Some(end - start);
        end := end + 1;
      } else if expression[end] == 'L' || expression[end] == 'l' {
        long := true;
        break;
      } else {
        break;
      }
    }
    if end == |expression| {
      ScanEnds(s, point);
    }
    NumberOfShape(s, NumberShape(end - start, point, long));
    var text := expression[start..end];
    assert text == s[..end - start];
    if point.Some? {
      r := if long then None else Some((FloatLiteral(text), end));
    } else {
      var value := Decimal(text);
      r := if value >= INT_LIMIT then None else Some((IntLiteral(value), if long then end + 1 else end));
    }
  }

  method ReadString(expression: string, start: nat, quote: char) returns (r: Option<(string, nat)>)
    requires start < |expression| && expression[start] == quote
    ensures match StringBody(expression[start + 1..], quote)
            case None => r == None
            case Some((value, length)) => r == Some((value, start + 1 + length))
  {
    hide StringBody;
    ghost var body := StringBody(expression[start + 1..], quote);
    var index := start + 1;
    var value := "";
    AfterNothing(body);
    while index < |expression|
      invariant start + 1 <= index <= |expression|
      invariant body == After(value, index - start - 1, StringBody(expression[index..], quote))
    {
      var character := expression[index];
      BodyStep(expression[index..], quote);
      if character == quote {
        if index + 1 < |expression| && expression[index + 1] == quote {
          assert expression[index..][2..] == expression[index + 2..];
          AfterStep(value, index - start - 1, [quote], 2, StringBody(expression[index + 2..], quote));
          value := value + [quote];
          index := index + 2;
          continue;
        }
        assert value + "" == value;
        return Some((value, index + 1));
      }
      assert expression[index..][1..] == expression[index + 1..];
      AfterStep(value, index - start - 1, [character], 1, StringBody(expression[index + 1..], quote));
      value := value + [character];
      index := index + 1;
    }
    NoBody(expression[index..], quote);
    r := None;
  }

  lemma AfterNothing(body: Option<(string, nat)>)
    ensures After("", 0, body) == body
  {
    assert body.Some? ==> "" + body.value.0 == body.value.0;
  }

  lemma NoBody(s: string, quote: char)
    ensures s == "" ==> StringBody(s, quote) == None
  {
  }

  /** The body of a string, one character or one doubled quote at a time. */
  lemma BodyStep(s: string, quote: char)
    requires s != ""
    ensures StringBody(s, quote) ==
      if s[0] != quote then After([s[0]], 1, StringBody(s[1..], quote))
      else if |s| > 1 && s[1] == quote then After([quote], 2, StringBody(s[2..], quote))
      else Some(("", 1))
  {
  }

  /** The body of a string of which `value` has been read from `length` characters. */
  ghost function After(value: string, length: nat, left: Option<(string, nat)>): Option<(string, nat)> {
    if left.None? then None else Some((value + left.value.0, length + left.value.1))
  }

  lemma AfterStep(value: string, length: nat, more: string, step: nat, left: Option<(string, nat)>)
    ensures After(value, length, After(more, step, left)) == After(value + more, length + step, left)
  {
    if left.Some? {
      assert value + (more + left.value.0) == (value + more) + left.value.0;
    }
  }

  /** One round of the main loop: the token at `position`, and where the next one may start. */
  method ReadToken(expression: string, position: nat) returns (r: Option<(Token, nat)>)
    requires position < |expression| && !IsSpace(expression[position])
    ensures match FirstToken(expression[position..])
            case None => r == None
            case Some((token, length)) => r == Some((token, position + length))
  {
    hide StringBody, NumberToken, WordLength, FirstSymbol, ValidToken;
    ghost var rest := expression[position..];
    var character := expression[position];
    assert rest[1..] == expression[position + 1..];
    if character == '\'' || character == '"' {
      var literal := ReadString(expression, position, character);
      return if literal.None? then None else Some((Text(literal.value.0), literal.value.1));
    }
    if IsDigit(character) {
      r := ReadNumber(expression, position);
      return;
    }
    if character == '#' || character == '@' {
      var name, end := ReadIdentifier(expression, position + 1);
      if name == "" {
        return None;
      }
      assert name == rest[1..end - position];
      return Some((if character == '#' then VariableName(name) else BeanName(name), end));
    }
    if IsNameStart(character) {
      var name, end := ReadIdentifier(expression, position);
      return Some((Identifier(name), end));
    }
    var symbol := FirstSymbol(SYMBOLS, expression[position..]);
    r := if symbol.None? then None else Some((Symbol(symbol.value), position + |Spelling(symbol.value)|));
  }

  method Tokenize(expression: string) returns (r: Option<seq<Token>>)
    ensures r == Lex(expression)
  {
    hide FirstToken, ValidTokens, ValidToken;
    var tokens: seq<Token> := [];
    var position := 0;
    ghost var all := Lex(expression);
    assert all.Some? ==> [] + all.value == all.value;
    assert Joined([], all) == all && expression[0..] == expression;
    while position < |expression|
      invariant 0 <= position <= |expression|
      invariant Lex(expression) == Joined(tokens, Lex(expression[position..]))
    {
      ghost var rest := expression[position..];
      if IsSpace(expression[position]) {
        assert rest[1..] == expression[position + 1..];
        position := position + 1;
        continue;
      }
      var token := ReadToken(expression, position);
      if token.None? {
        return None;
      }
      var next := token.value.1;
      assert rest[next - position..] == expression[next..];
      JoinedStep(tokens, token.value.0, Lex(expression[next..]));
      tokens := tokens + [token.value.0];
      position := next;
    }
    assert tokens + [] == tokens;
    r := Some(tokens);
  }

  ghost function Joined(tokens: seq<Token>, left: Option<seq<Token>>): Option<seq<Token>> {
    if left.None? then None else Some(tokens + left.value)
  }

  lemma JoinedStep(tokens: seq<Token>, token: Token, left: Option<seq<Token>>)
    ensures Joined(tokens, Prepend(token, left)) == Joined(tokens + [token], left)
  {
    if left.Some? {
      assert tokens + ([token] + left.value) == (tokens + [token]) + left.value;
    }
  }
}
