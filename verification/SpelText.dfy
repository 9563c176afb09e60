/**
 Writing tokens out as text, with a space between each two, and reading them back.
 */
module SpelText {
  import opened Wrappers
  import opened Decimals
  import opened SpelSyntax
  import opened SpelTokens
  import opened SpelLexer

  /** A text with every single quote doubled. */
  function Doubled(text: string): string {
    if text == "" then ""
    else (if text[0] == '\'' then "''" else [text[0]]) + Doubled(text[1..])
  }

  function RenderToken(token: Token): string {
    match token
    case Identifier(name) => name
    case Text(text) => "'" + Doubled(text) + "'"
    case IntLiteral(n) => DecimalText(n)
    case FloatLiteral(digits) => digits
    case VariableName(name) => "#" + name
    case BeanName(name) => "@" + name
    case Symbol(symbol) => Spelling(symbol)
  }

  function Render(tokens: seq<Token>): string {
    if tokens == [] then ""
    else if |tokens| == 1 then RenderToken(tokens[0])
    else RenderToken(tokens[0]) + " " + Render(tokens[1..])
  }

  predicate Separated(tail: string) { tail == "" || tail[0] == ' ' }

  lemma {:induction false} WordStops(word: string, tail: string)
    requires forall i :: 0 <= i < |word| ==> IsNamePart(word[i])
    requires Separated(tail)
    ensures WordLength(word + tail) == |word|
  {
    if word != "" {
      assert (word + tail)[1..] == word[1..] + tail;
      WordStops(word[1..], tail);
    } else {
      assert word + tail == tail;
    }
  }

  lemma BodyEnds(tail: string)
    requires Separated(tail)
    ensures StringBody("'" + tail, '\'') == Some(("", 1))
  {
  }

  lemma {:induction false} StringStops(text: string, tail: string)
    requires Separated(tail)
    ensures StringBody(Doubled(text) + "'" + tail, '\'') == Some((text, |Doubled(text)| + 1))
  {
    hide StringBody, Separated;
    var s := Doubled(text) + "'" + tail;
    if text == "" {
      assert s == "'" + tail;
      BodyEnds(tail);
    } else {
      StringStops(text[1..], tail);
      var rest := Doubled(text[1..]) + "'" + tail;
      if text[0] == '\'' {
        assert s == "''" + rest && s[2..] == rest;
      } else {
        assert s == [text[0]] + rest && s[1..] == rest;
      }
      BodyStep(s, '\'');
      assert [text[0]] + text[1..] == text;
    }
  }

  /** The scan runs over digits. */
  lemma {:induction false} ScanDigits(s: string, lo: nat, hi: nat, point: Option<nat>)
    requires lo <= hi <= |s| && forall i :: lo <= i < hi ==> IsDigit(s[i])
    ensures ScanNumber(s, lo, point) == ScanNumber(s, hi, point)
    decreases hi - lo
  {
    if lo < hi {
      ScanDigits(s, lo + 1, hi, point);
    }
  }

  lemma FloatStops(digits: string, tail: string)
    requires IsFloat(digits) && Separated(tail)
    ensures digits != "" && IsDigit(digits[0])
    ensures NumberToken(digits + tail) == Some((FloatLiteral(digits), |digits|))
  {
    hide NumberToken, ScanNumber;
    var s := digits + tail;
    var p :| 0 <= p < |digits| && digits[p] == '.' && AllDigits(digits[..p]) && AllDigits(digits[p + 1..]);
    assert forall i :: 0 <= i < p ==> s[i] == digits[..p][i];
    assert forall i :: p < i < |digits| ==> s[i] == digits[p + 1..][i - p - 1];
    ScanDigits(s, 0, p, None);
    ScanDigits(s, p + 1, |digits|, Some(p));
    ScanStep(s, p, None);
    assert s[..|digits|] == digits && s[|digits|..] == tail;
    assert IsDigit(digits[p + 1..][0]) && IsDigit(digits[..p][0]);
    SeparatorStops(s, |digits|, Some(p));
    NumberOfShape(s, ScanNumber(s, 0, None));
  }

  /** Neither a digit nor a point nor a suffix follows. */
  lemma SeparatorStops(s: string, end: nat, point: Option<nat>)
    requires end <= |s| && Separated(s[end..])
    ensures ScanNumber(s, end, point) == NumberShape(end, point, false)
  {
    if end < |s| {
      assert s[end..][0] == s[end];
    }
  }

  lemma IntStops(n: nat, tail: string)
    requires n < INT_LIMIT && Separated(tail)
    ensures NumberToken(DecimalText(n) + tail) == Some((IntLiteral(n), |DecimalText(n)|))
  {
    hide NumberToken, ScanNumber;
    var digits := DecimalText(n);
    var s := digits + tail;
    ScanDigits(s, 0, |digits|, None);
    assert s[..|digits|] == digits && s[|digits|..] == tail;
    SeparatorStops(s, |digits|, None);
    NumberOfShape(s, ScanNumber(s, 0, None));
    DecimalRoundTrip(n);
  }

  /** The place of a symbol in the table. */
  function Rank(symbol: Punctuation): nat {
    match symbol
    case SafeDot => 0 case Question2 => 1 case BangBracket => 2 case QuestionBracket => 3
    case EqualEqual => 4 case BangEqual => 5 case LessEqual => 6 case GreaterEqual => 7
    case AndAnd => 8 case OrOr => 9 case Plus => 10 case Minus => 11 case Star => 12
    case Slash => 13 case Percent => 14 case OpenParen => 15 case CloseParen => 16
    case OpenBracket => 17 case CloseBracket => 18 case OpenBrace => 19 case CloseBrace => 20
    case Comma => 21 case Colon => 22 case Dot => 23 case Question => 24 case Bang => 25
    case LessThan => 26 case GreaterThan => 27
  }

  lemma TableOrder(symbol: Punctuation)
    ensures Rank(symbol) < |SYMBOLS| && SYMBOLS[Rank(symbol)] == symbol
  {
  }

  lemma TableRanks(k: nat)
    requires k < |SYMBOLS|
    ensures Rank(SYMBOLS[k]) == k
  {
  }

  lemma DiffersAt(prefix: string, s: string, i: nat)
    requires i < |prefix| && (i < |s| ==> prefix[i] != s[i])
    ensures !(prefix <= s)
  {
  }

  /** No symbol tried earlier is a prefix. */
  lemma EarlierDiffers(earlier: Punctuation, symbol: Punctuation, tail: string)
    requires Rank(earlier) < Rank(symbol) && Separated(tail)
    ensures !(Spelling(earlier) <= Spelling(symbol) + tail)
  {
    var prefix, s := Spelling(earlier), Spelling(symbol) + tail;
    DiffersAt(prefix, s, if prefix[0] == s[0] then 1 else 0);
  }

  lemma {:induction false} FirstSymbolFrom(k: nat, symbol: Punctuation, tail: string)
    requires k <= Rank(symbol) && Separated(tail)
    ensures FirstSymbol(SYMBOLS[k..], Spelling(symbol) + tail) == Some(symbol)
    decreases Rank(symbol) - k
  {
    hide Spelling, Rank, FirstSymbol;
    TableOrder(symbol);
    TableStep(k, Spelling(symbol) + tail);
    if k < Rank(symbol) {
      TableRanks(k);
      EarlierDiffers(SYMBOLS[k], symbol, tail);
      FirstSymbolFrom(k + 1, symbol, tail);
    }
  }

  lemma TableStep(k: nat, s: string)
    requires k < |SYMBOLS|
    ensures FirstSymbol(SYMBOLS[k..], s)
         == if Spelling(SYMBOLS[k]) <= s then Some(SYMBOLS[k]) else FirstSymbol(SYMBOLS[k + 1..], s)
  {
    hide Spelling;
    TailOf(SYMBOLS, k);
  }

  lemma TailOf(table: seq<Punctuation>, k: nat)
    requires k < |table|
    ensures table[k..][0] == table[k] && table[k..][1..] == table[k + 1..]
  {
  }

  lemma SymbolStart(symbol: Punctuation)
    ensures var c := Spelling(symbol)[0];
            !IsSpace(c) && !IsDigit(c) && !IsNameStart(c) && c !in {'\'', '"', '#', '@'}
  {
  }

  lemma ReadsText(text: string, tail: string)
    requires Separated(tail)
    ensures FirstToken(RenderToken(Text(text)) + tail) == Some((Text(text), |RenderToken(Text(text))|))
  {
    hide StringBody, Doubled;
    var s := RenderToken(Text(text)) + tail;
    StringStops(text, tail);
    assert s[1..] == Doubled(text) + "'" + tail;
  }

  lemma ReadsMarked(name: string, tail: string)
    requires IsWord(name) && Separated(tail)
    ensures FirstToken("#" + name + tail) == Some((VariableName(name), |name| + 1))
    ensures FirstToken("@" + name + tail) == Some((BeanName(name), |name| + 1))
  {
    hide WordLength;
    var v, b := "#" + name + tail, "@" + name + tail;
    WordStops(name, tail);
    assert v[1..] == name + tail && v[1..|name| + 1] == name;
    assert b[1..] == name + tail && b[1..|name| + 1] == name;
  }

  lemma ReadsName(name: string, tail: string)
    requires IsName(name) && Separated(tail)
    ensures FirstToken(name + tail) == Some((Identifier(name), |name|))
  {
    hide WordLength;
    WordStops(name, tail);
    assert (name + tail)[..|name|] == name;
  }

  lemma ReadsSymbol(symbol: Punctuation, tail: string)
    requires Separated(tail)
    ensures FirstToken(Spelling(symbol) + tail) == Some((Symbol(symbol), |Spelling(symbol)|))
  {
    hide FirstSymbol, Spelling;
    SymbolStart(symbol);
    FirstSymbolFrom(0, symbol, tail);
    assert SYMBOLS[0..] == SYMBOLS;
  }

  /** Each token is read back from its rendering. */
  lemma ReadsToken(token: Token, tail: string)
    requires ValidToken(token) && Separated(tail)
    ensures var s := RenderToken(token) + tail;
            s != "" && !IsSpace(s[0]) && FirstToken(s) == Some((token, |RenderToken(token)|))
  {
    hide FirstToken, Doubled, DecimalText, Spelling, IsFloat;
    match token
    case Identifier(name) => ReadsName(name, tail);
    case Text(text) => ReadsText(text, tail);
    case IntLiteral(n) => ReadsInt(n, tail);
    case FloatLiteral(digits) => ReadsFloat(digits, tail);
    case VariableName(name) => ReadsMarked(name, tail);
    case BeanName(name) => ReadsMarked(name, tail);
    case Symbol(symbol) =>
      SymbolStart(symbol);
      ReadsSymbol(symbol, tail);
  }

  lemma ReadsInt(n: nat, tail: string)
    requires n < INT_LIMIT && Separated(tail)
    ensures var s := DecimalText(n) + tail;
      s != "" && !IsSpace(s[0]) && FirstToken(s) == Some((IntLiteral(n), |DecimalText(n)|))
  {
    hide NumberToken, DecimalText, StringBody, FirstSymbol, WordLength;
    IntStops(n, tail);
  }

  lemma ReadsFloat(digits: string, tail: string)
    requires IsFloat(digits) && Separated(tail)
    ensures var s := digits + tail;
      s != "" && !IsSpace(s[0]) && FirstToken(s) == Some((FloatLiteral(digits), |digits|))
  {
    hide NumberToken, IsFloat, StringBody, FirstSymbol, WordLength;
    FloatStops(digits, tail);
  }

  /** Tokenising a rendered token list gives the list back. */
  lemma {:induction false} LexRender(tokens: seq<Token>)
    requires ValidTokens(tokens)
    ensures Lex(Render(tokens)) == Some(tokens)
  {
    hide FirstToken, RenderToken, ValidToken;
    if tokens != [] {
      assert ValidToken(tokens[0]);
      var s := Render(tokens);
      var text := RenderToken(tokens[0]);
      var others := tokens[1..];
      LexRender(others);
      assert [tokens[0]] + others == tokens;
      if |tokens| == 1 {
        ReadsToken(tokens[0], "");
        assert text + "" == s && s[|text|..] == "";
      } else {
        var tail := " " + Render(others);
        ReadsToken(tokens[0], tail);
        assert text + tail == s && s[|text|..] == tail;
        assert tail[1..] == Render(others);
        assert Lex(tail) == Lex(tail[1..]);
      }
    }
  }
}
