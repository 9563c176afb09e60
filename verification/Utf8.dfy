/** UTF-8 as the standard library checks and slices it. A byte is written as the character of the same code. */
module Utf8 {

  predicate InRange(c: char, low: int, high: int) {
    low <= c as int <= high
  }

  predicate IsContinuation(c: char) {
    InRange(c, 0x80, 0xBF)
  }

  /** The length of the well-formed sequence that `bytes` starts with, 0 when there is none
      (table 3-7 of the Unicode Standard). */
  function CharLength(bytes: string): (n: nat)
    requires |bytes| > 0
    ensures n <= |bytes|
    ensures n > 0 ==> !IsContinuation(bytes[0])
    ensures forall i :: 0 < i < n ==> IsContinuation(bytes[i])
    ensures n <= 4
    ensures n > 1 ==> bytes[0] as int >= 0x80
  {
    var first := bytes[0];
    if InRange(first, 0, 0x7F) then 1
    else if InRange(first, 0xC2, 0xDF) then
      if |bytes| >= 2 && IsContinuation(bytes[1]) then 2 else 0
    else if InRange(first, 0xE0, 0xEF) then
      if |bytes| >= 3 && IsSecond(first, bytes[1]) && IsContinuation(bytes[2]) then 3 else 0
    else if InRange(first, 0xF0, 0xF4) then
      if |bytes| >= 4 && IsSecond(first, bytes[1]) && IsContinuation(bytes[2]) && IsContinuation(bytes[3]) then 4 else 0
    else 0
  }

  /** The second byte rules out overlong forms, surrogates and values past U+10FFFF. */
  predicate IsSecond(first: char, second: char) {
    && IsContinuation(second)
    && (first as int == 0xE0 ==> second as int >= 0xA0)
    && (first as int == 0xED ==> second as int <= 0x9F)
    && (first as int == 0xF0 ==> second as int >= 0x90)
    && (first as int == 0xF4 ==> second as int <= 0x8F)
  }

  predicate IsUtf8(bytes: string) {
    bytes == "" || (CharLength(bytes) > 0 && IsUtf8(bytes[CharLength(bytes)..]))
  }

  predicate IsBoundary(text: string, index: nat) {
    index == 0 || index == |text| || (index < |text| && !IsContinuation(text[index]))
  }

  /** The first character depends on its own bytes alone. */
  lemma SameFirst(a: string, b: string)
    requires a != "" && CharLength(a) <= |b| && CharLength(a) > 0
    requires forall i | 0 <= i < CharLength(a) :: a[i] == b[i]
    ensures CharLength(b) == CharLength(a)
  {
    hide IsSecond, IsContinuation;
  }

  lemma {:induction false} ConcatIsUtf8(a: string, b: string)
    requires IsUtf8(a) && IsUtf8(b)
    ensures IsUtf8(a + b)
  {
    hide CharLength;
    if a == "" {
      assert a + b == b;
    } else {
      var n := CharLength(a);
      SameFirst(a, a + b);
      assert (a + b)[n..] == a[n..] + b;
      ConcatIsUtf8(a[n..], b);
    }
  }

  /** Cutting text at a character boundary leaves text on both sides. */
  lemma {:induction false} CutIsUtf8(text: string, index: nat)
    requires IsUtf8(text) && index <= |text| && IsBoundary(text, index)
    ensures IsUtf8(text[..index]) && IsUtf8(text[index..])
  {
    hide CharLength, IsContinuation;
    if index == 0 {
      assert text[..0] == "" && text[0..] == text;
    } else {
      var n := CharLength(text);
      BoundaryOfRest(text, n, index);
      CutIsUtf8(text[n..], index - n);
      SlicesOfRest(text, n, index);
      SameFirst(text, text[..index]);
    }
  }

  lemma BoundaryOfRest(text: string, n: nat, index: nat)
    requires text != "" && n == CharLength(text) && 0 < index <= |text| && IsBoundary(text, index)
    ensures n <= index && IsBoundary(text[n..], index - n)
  {
    hide CharLength;
  }

  lemma SlicesOfRest(text: string, n: nat, index: nat)
    requires n <= index <= |text|
    ensures text[n..][..index - n] == text[..index][n..] && text[n..][index - n..] == text[index..]
  {
  }

  /** A boundary is never more than three bytes back. */
  lemma {:induction false} BoundaryIsNear(text: string, index: nat) returns (near: nat)
    requires IsUtf8(text) && index <= |text|
    ensures near <= index <= near + 3
    ensures IsBoundary(text, near)
  {
    if index == 0 {
      return 0;
    }
    var n := CharLength(text);
    if index < n {
      return 0;
    }
    var inner := BoundaryIsNear(text[n..], index - n);
    StartsAtBoundary(text);
    return inner + n;
  }

  /** What follows the first character starts a character. */
  lemma StartsAtBoundary(text: string)
    requires IsUtf8(text) && text != ""
    ensures CharLength(text) > 0 && IsBoundary(text, CharLength(text))
  {
    var rest := text[CharLength(text)..];
    if rest != "" {
      assert CharLength(rest) > 0;
    }
  }

  /** Text can always be cut after an ASCII byte. */
  lemma {:induction false} BoundaryAfterAscii(text: string, index: nat)
    requires IsUtf8(text) && index < |text| && text[index] as int < 0x80
    ensures IsBoundary(text, index + 1)
  {
    var n := CharLength(text);
    StartsAtBoundary(text);
    if index >= n {
      BoundaryAfterAscii(text[n..], index - n);
      assert index + 1 < |text| ==> text[n..][index + 1 - n] == text[index + 1];
    }
  }
}
