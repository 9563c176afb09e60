/** Tokens spelled out in characters (crates/spel/src/lexer.rs). */
module SpelSpellings {
  import opened Wrappers
  import opened Decimals
  import opened SpelSyntax
  import opened SpelTokens
  import opened SpelLexer
  import opened SpelText

  datatype Mark = Mark(text: string, symbol: Punctuation)

  const MARKS: seq<Mark> := [
    Mark("?.", SafeDot), Mark("?:", Question2), Mark(".![", BangBracket), Mark(".?[", QuestionBracket),
    Mark("==", EqualEqual), Mark("!=", BangEqual), Mark("<=", LessEqual), Mark(">=", GreaterEqual),
    Mark("&&", AndAnd), Mark("||", OrOr), Mark("+", Plus), Mark("-", Minus), Mark("*", Star), Mark("/", Slash),
    Mark("%", Percent), Mark("(", OpenParen), Mark(")", CloseParen), Mark("[", OpenBracket), Mark("]", CloseBracket),
    Mark("{", OpenBrace), Mark("}", CloseBrace), Mark(",", Comma), Mark(":", Colon), Mark(".", Dot),
    Mark("?", Question), Mark("!", Bang), Mark("<", LessThan), Mark(">", GreaterThan)]

  /** Every symbol is read from its characters. */
  lemma MarksAreRead(i: nat)
    requires i < |MARKS|
    ensures Lex(MARKS[i].text) == Some([Symbol(MARKS[i].symbol)])
  {
    hide Lex, Spelling, MARKS;
    SpelledAs(i);
    var token := Symbol(MARKS[i].symbol);
    assert RenderToken(token) == MARKS[i].text && ValidToken(token);
    assert Render([token]) == RenderToken(token);
    LexRender([token]);
  }

  lemma SpelledAs(i: nat)
    requires i < |MARKS|
    ensures Spelling(MARKS[i].symbol) == MARKS[i].text
  {
    if i < 14 {
      EarlierMarks(i);
    } else if i < 21 {
      LaterMarks(i);
    } else {
      LastMarks(i);
    }
  }

  lemma EarlierMarks(i: nat)
    requires i < 14
    ensures Spelling(MARKS[i].symbol) == MARKS[i].text
  {
  }

  lemma LaterMarks(i: nat)
    requires 14 <= i < 21
    ensures Spelling(MARKS[i].symbol) == MARKS[i].text
  {
  }

  lemma LastMarks(i: nat)
    requires 21 <= i < |MARKS|
    ensures Spelling(MARKS[i].symbol) == MARKS[i].text
  {
  }

  predicate IsLetterOfName(c: char) {
    'a' <= c <= 'z' || 'A' <= c <= 'Z' || c == '_' || c == '$'
  }

  predicate IsPartOfName(c: char) {
    IsLetterOfName(c) || '0' <= c <= '9'
  }

  /** So is every name, on its own, as a variable and as a bean, as far as it goes. */
  lemma NamesAreRead(name: string, tail: string)
    requires name != "" && forall i | 0 <= i < |name| :: IsPartOfName(name[i])
    requires (tail == "" || !IsPartOfName(tail[0])) && Lex(tail).Some?
    ensures IsLetterOfName(name[0]) ==> Lex(name + tail) == Some([Identifier(name)] + Lex(tail).value)
    ensures Lex("#" + name + tail) == Some([VariableName(name)] + Lex(tail).value)
    ensures Lex("@" + name + tail) == Some([BeanName(name)] + Lex(tail).value)
  {
    hide Lex, FirstToken, WordLength, IsNameStart, IsPartOfName, IsLetterOfName, IsSpace;
    WordEnds(name, tail);
    MarkedIsRead("#", name, tail);
    MarkedIsRead("@", name, tail);
    if IsLetterOfName(name[0]) {
      FirstIsName(name + tail);
      OneToken(name, tail, Identifier(name));
    }
  }

  lemma MarkedIsRead(mark: string, name: string, tail: string)
    requires mark in {"#", "@"} && name != "" && WordLength(name + tail) == |name| && Lex(tail).Some?
    ensures Lex(mark + name + tail)
         == Some([if mark == "#" then VariableName(name) else BeanName(name)] + Lex(tail).value)
  {
    hide Lex, FirstToken, WordLength, IsSpace;
    var marked := mark + name;
    var s := marked + tail;
    assert s[1..] == name + tail && s[1..|name| + 1] == name;
    FirstIsMarked(s);
    OneToken(marked, tail, if mark == "#" then VariableName(name) else BeanName(name));
  }

  lemma FirstIsName(s: string)
    requires s != "" && IsLetterOfName(s[0])
    ensures !IsSpace(s[0]) && FirstToken(s) == Some((Identifier(s[..WordLength(s)]), WordLength(s)))
  {
    hide NumberToken, StringBody, FirstSymbol, WordLength;
  }

  lemma FirstIsMarked(s: string)
    requires s != "" && (s[0] == '#' || s[0] == '@') && WordLength(s[1..]) > 0
    ensures var n := WordLength(s[1..]);
      && !IsSpace(s[0])
      && FirstToken(s) == Some((if s[0] == '#' then VariableName(s[1..n + 1]) else BeanName(s[1..n + 1]), n + 1))
  {
    hide NumberToken, StringBody, FirstSymbol, WordLength, IsWord;
  }

  lemma WordEnds(name: string, tail: string)
    requires name != "" && forall i | 0 <= i < |name| :: IsPartOfName(name[i])
    requires tail == "" || !IsPartOfName(tail[0])
    ensures WordLength(name + tail) == |name| && (name + tail)[..|name|] == name
  {
    var all := name + tail;
    assert forall i | 0 <= i < |name| :: IsPartOfName(all[i]);
    assert |name| < |all| ==> all[|name|] == tail[0];
  }

  lemma OneToken(front: string, tail: string, token: Token)
    requires front != "" && !IsSpace(front[0])
    requires FirstToken(front + tail) == Some((token, |front|)) && Lex(tail).Some?
    ensures Lex(front + tail) == Some([token] + Lex(tail).value)
  {
    hide FirstToken;
    assert (front + tail)[|front|..] == tail;
  }

  /** Space of any kind before a token makes no difference. */
  lemma SpaceIsSkipped(c: char, text: string)
    requires c in " \t\n\r\U{000B}\U{000C}"
    ensures Lex([c] + text) == Lex(text)
  {
    assert ([c] + text)[1..] == text;
  }

  /** A number in decimal is read if it is below 2^63, with or without a suffix. */
  lemma NumbersAreRead(n: nat)
    ensures var tokens := if n < 0x8000_0000_0000_0000 then Some([IntLiteral(n)]) else None;
      && Lex(DecimalText(n)) == tokens
      && Lex(DecimalText(n) + "L") == tokens && Lex(DecimalText(n) + "l") == tokens
  {
    hide Lex;
    NumberIsRead(n, "");
    NumberIsRead(n, "L");
    NumberIsRead(n, "l");
    assert DecimalText(n) + "" == DecimalText(n);
  }

  lemma NumberIsRead(n: nat, suffix: string)
    requires suffix in {"", "L", "l"}
    ensures Lex(DecimalText(n) + suffix)
         == if n < 0x8000_0000_0000_0000 then Some([IntLiteral(n)]) else None
  {
    hide Lex, ScanNumber, NumberToken, IsFloat;
    var digits := DecimalText(n);
    var s := digits + suffix;
    DecimalRoundTrip(n);
    assert forall i | 0 <= i < |digits| :: s[i] == digits[i];
    ScanDigits(s, 0, |digits|, None);
    if suffix == "" {
      ScanEnds(s, None);
    } else {
      ScanStep(s, |digits|, None);
    }
    assert s[..|digits|] == digits;
    NumberOfShape(s, ScanNumber(s, 0, None));
    NumberAlone(s);
  }

  lemma NumberAlone(s: string)
    requires s != "" && IsDigit(s[0])
    ensures NumberToken(s).None? ==> Lex(s) == None
    ensures NumberToken(s).Some? && NumberToken(s).value.1 == |s| ==> Lex(s) == Some([NumberToken(s).value.0])
  {
    hide NumberToken, FirstToken;
    FirstIsNumber(s);
    if FirstToken(s).Some? && NumberToken(s).value.1 == |s| {
      var token := NumberToken(s).value.0;
      assert s + "" == s && Lex("") == Some([]) && [token] + [] == [token];
      OneToken(s, "", token);
    }
  }

  lemma FirstIsNumber(s: string)
    requires s != "" && IsDigit(s[0])
    ensures !IsSpace(s[0]) && FirstToken(s) == NumberToken(s)
  {
    hide NumberToken, StringBody, FirstSymbol, WordLength;
  }

  /** Digits around a point are a floating point literal. */
  lemma FractionsAreRead(whole: string, fraction: string)
    requires AllDigits(whole) && AllDigits(fraction)
    ensures Lex(whole + "." + fraction) == Some([FloatLiteral(whole + "." + fraction)])
  {
    hide Lex, NumberToken;
    var digits := whole + "." + fraction;
    assert digits[..|whole|] == whole && digits[|whole| + 1..] == fraction;
    assert IsFloat(digits);
    FloatStops(digits, "");
    assert digits + "" == digits;
    NumberAlone(digits);
  }
}
