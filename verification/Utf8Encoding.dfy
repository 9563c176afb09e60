/**
 What text is: the bytes of Unicode scalar values, as section 3 of RFC 3629 writes them. Pushed chunks are
 text for the injector (crates/containerproxy/src/dataplane/inject.rs) exactly if they are that.
 */
module Utf8Encoding {
  import opened Utf8

  predicate IsScalar(c: int) {
    0 <= c < 0xD800 || 0xE000 <= c < 0x11_0000
  }

  type Scalar = c: nat | IsScalar(c) witness 0

  function Byte(n: int): (b: char)
    requires 0 <= n < 0x100
    ensures b as int == n
  {
    n as char
  }

  /** What is left of a number without its last six bits. */
  function Upper(n: nat): (q: nat)
    ensures q * 0x40 <= n < q * 0x40 + 0x40
  {
    n / 0x40
  }

  function Continuation(n: nat): (b: char)
    ensures b as int == 0x80 + (n - Upper(n) * 0x40)
  {
    Byte(0x80 + (n - Upper(n) * 0x40))
  }

  function Encode(c: Scalar): (bytes: string)
    ensures bytes != ""
  {
    var u: nat := Upper(c);
    var v := Upper(u);
    var w := Upper(v);
    assert IsScalar(c);
    if c < 0x80 then [Byte(c)]
    else if c < 0x800 then [Byte(0xC0 + u), Continuation(c)]
    else if c < 0x1_0000 then [Byte(0xE0 + v), Continuation(u), Continuation(c)]
    else [Byte(0xF0 + w), Continuation(v), Continuation(u), Continuation(c)]
  }

  lemma UpperIs(q: nat, r: nat)
    requires r < 0x40
    ensures Upper(q * 0x40 + r) == q
  {
  }

  function EncodeAll(scalars: seq<Scalar>): string {
    if scalars == [] then "" else Encode(scalars[0]) + EncodeAll(scalars[1..])
  }

  lemma EncodedIsRead(c: Scalar, tail: string)
    ensures CharLength(Encode(c) + tail) == |Encode(c)|
  {
    var bytes, n := Encode(c) + tail, |Encode(c)|;
    var u: nat := Upper(c);
    var v := Upper(u);
    var w := Upper(v);
    assert IsScalar(c);
    assert bytes[0] == Encode(c)[0] && (n > 1 ==> bytes[1] == Encode(c)[1]);
    assert (n > 2 ==> bytes[2] == Encode(c)[2]) && (n > 3 ==> bytes[3] == Encode(c)[3]);
    if n == 3 {
      assert v == 0 ==> u >= 0x20;
      assert v == 13 ==> u < 13 * 0x40 + 0x20;
    } else if n == 4 {
      assert w == 0 ==> v >= 0x10;
      assert w == 4 ==> v < 4 * 0x40 + 0x10;
    }
  }

  /** Two scalar values that one sequence encodes are the same. */
  lemma EncodedOnce(c: Scalar, d: Scalar)
    requires Encode(c) == Encode(d)
    ensures c == d
  {
    hide Upper;
    var a, b := Encode(c), Encode(d);
    assert |a| == |b|;
    assert a[0] == b[0] && a[|a| - 1] == b[|a| - 1];
    if |a| > 2 {
      assert a[|a| - 2] == b[|a| - 2];
    }
    if |a| > 3 {
      assert a[1] == b[1];
    }
  }

  /** A well-formed sequence is that of a scalar value. */
  lemma DecodedFirst(bytes: string) returns (c: Scalar)
    requires bytes != "" && CharLength(bytes) > 0
    ensures Encode(c) == bytes[..CharLength(bytes)]
  {
    var n := CharLength(bytes);
    var b0 := bytes[0] as int;
    if n == 1 {
      c := b0;
    } else if n == 2 {
      c := TwoBytes(b0, bytes[1] as int);
    } else if n == 3 {
      c := ThreeBytes(b0, bytes[1] as int, bytes[2] as int);
    } else {
      c := FourBytes(b0, bytes[1] as int, bytes[2] as int, bytes[3] as int);
    }
  }

  lemma TwoBytes(a: int, b: int) returns (c: Scalar)
    requires 0xC2 <= a <= 0xDF && 0x80 <= b <= 0xBF
    ensures Encode(c) == [a as char, b as char]
  {
    UpperIs(a - 0xC0, b - 0x80);
    c := (a - 0xC0) * 0x40 + (b - 0x80);
  }

  lemma ThreeBytes(a: int, b: int, d: int) returns (c: Scalar)
    requires 0xE0 <= a <= 0xEF && 0x80 <= b <= 0xBF && 0x80 <= d <= 0xBF
    requires (a == 0xE0 ==> b >= 0xA0) && (a == 0xED ==> b <= 0x9F)
    ensures Encode(c) == [a as char, b as char, d as char]
  {
    var u := (a - 0xE0) * 0x40 + (b - 0x80);
    UpperIs(a - 0xE0, b - 0x80);
    UpperIs(u, d - 0x80);
    c := u * 0x40 + (d - 0x80);
  }

  lemma FourBytes(a: int, b: int, d: int, e: int) returns (c: Scalar)
    requires 0xF0 <= a <= 0xF4 && 0x80 <= b <= 0xBF && 0x80 <= d <= 0xBF && 0x80 <= e <= 0xBF
    requires (a == 0xF0 ==> b >= 0x90) && (a == 0xF4 ==> b <= 0x8F)
    ensures Encode(c) == [a as char, b as char, d as char, e as char]
  {
    var v := (a - 0xF0) * 0x40 + (b - 0x80);
    var u := v * 0x40 + (d - 0x80);
    UpperIs(a - 0xF0, b - 0x80);
    UpperIs(v, d - 0x80);
    UpperIs(u, e - 0x80);
    c := u * 0x40 + (e - 0x80);
  }

  lemma {:induction false} EncodedIsUtf8(scalars: seq<Scalar>)
    ensures IsUtf8(EncodeAll(scalars))
  {
    hide CharLength, Encode;
    if scalars != [] {
      var first, tail := Encode(scalars[0]), EncodeAll(scalars[1..]);
      EncodedIsRead(scalars[0], tail);
      EncodedIsUtf8(scalars[1..]);
      assert (first + tail)[|first|..] == tail;
    }
  }

  lemma {:induction false} DecodedAll(bytes: string) returns (scalars: seq<Scalar>)
    requires IsUtf8(bytes)
    ensures EncodeAll(scalars) == bytes
  {
    hide CharLength, Encode;
    if bytes == "" {
      scalars := [];
    } else {
      var n := CharLength(bytes);
      var first := DecodedFirst(bytes);
      var rest := DecodedAll(bytes[n..]);
      scalars := [first] + rest;
      assert scalars[1..] == rest;
      assert bytes == bytes[..n] + bytes[n..];
    }
  }

  /** Bytes are text exactly when they encode some scalar values, which are then the only ones. */
  lemma TextIsEncoded(bytes: string)
    ensures IsUtf8(bytes) <==> exists scalars: seq<Scalar> :: EncodeAll(scalars) == bytes
    ensures forall a: seq<Scalar>, b: seq<Scalar> | EncodeAll(a) == bytes && EncodeAll(b) == bytes :: a == b
  {
    hide IsUtf8, EncodeAll;
    if IsUtf8(bytes) {
      var scalars := DecodedAll(bytes);
    }
    forall scalars: seq<Scalar> | EncodeAll(scalars) == bytes
      ensures IsUtf8(bytes)
    {
      EncodedIsUtf8(scalars);
    }
    forall a: seq<Scalar>, b: seq<Scalar> | EncodeAll(a) == bytes && EncodeAll(b) == bytes
      ensures a == b
    {
      EncodedAllOnce(a, b);
    }
  }

  lemma {:induction false} EncodedAllOnce(a: seq<Scalar>, b: seq<Scalar>)
    requires EncodeAll(a) == EncodeAll(b)
    ensures a == b
  {
    hide CharLength, Encode;
    if a != [] && b != [] {
      var tailA, tailB := EncodeAll(a[1..]), EncodeAll(b[1..]);
      EncodedIsRead(a[0], tailA);
      EncodedIsRead(b[0], tailB);
      var n := |Encode(a[0])|;
      assert (Encode(a[0]) + tailA)[..n] == Encode(a[0]) && (Encode(b[0]) + tailB)[..n] == Encode(b[0]);
      assert (Encode(a[0]) + tailA)[n..] == tailA && (Encode(b[0]) + tailB)[n..] == tailB;
      EncodedOnce(a[0], b[0]);
      EncodedAllOnce(a[1..], b[1..]);
      assert a == [a[0]] + a[1..] && b == [b[0]] + b[1..];
    }
  }
}
