/** Java's `String.hashCode` (crates/spel/src/eval.rs, `java_string_hash`), on UTF-16 code units. */
module JavaHash {
  import opened Wraparound

  const HALF: int := 0x8000_0000

  /** The hash after `units`, starting from `hash`: each step wraps to 32 bits, twice. */
  function HashFrom(hash: int, units: seq<int>): int
    decreases |units|
  {
    if units == [] then hash
    else HashFrom(Wrapped(Wrapped(hash * 31, HALF) + units[0], HALF), units[1..])
  }

  function Hash(units: seq<int>): int { HashFrom(0, units) }

  function Power(base: int, exponent: nat): int {
    if exponent == 0 then 1 else base * Power(base, exponent - 1)
  }

  /** The polynomial of the Java documentation, over the unbounded integers. */
  function Polynomial(units: seq<int>): int {
    if units == [] then 0 else units[0] * Power(31, |units| - 1) + Polynomial(units[1..])
  }

  method JavaStringHash(units: seq<int>) returns (hash: int)
    ensures hash == Hash(units)
  {
    hash := 0;
    assert units[0..] == units;
    for i := 0 to |units|
      invariant Hash(units) == HashFrom(hash, units[i..])
    {
      assert units[i..][1..] == units[i + 1..];
      hash := Wrapped(Wrapped(hash * 31, HALF) + units[i], HALF);
    }
  }

  lemma Step(hash: int, unit: int)
    ensures Wrapped(Wrapped(hash * 31, HALF) + unit, HALF) == Wrapped(hash * 31 + unit, HALF)
  {
    WrappedSummand(unit, hash * 31, HALF);
  }

  /** The loop from any hash: the hash so far times a power of 31, plus the polynomial, wrapped. */
  lemma {:induction false} HashFromIsPolynomial(hash: int, units: seq<int>)
    requires -HALF <= hash < HALF
    ensures HashFrom(hash, units) == Wrapped(hash * Power(31, |units|) + Polynomial(units), HALF)
    decreases |units|
  {
    if units != [] {
      Step(hash, units[0]);
      HashFromIsPolynomial(Wrapped(hash * 31 + units[0], HALF), units[1..]);
      StepPolynomial(hash, units[0], Power(31, |units| - 1), Polynomial(units[1..]));
    } else {
      assert hash * Power(31, 0) == hash;
    }
  }

  lemma StepPolynomial(hash: int, unit: int, p: int, rest: int)
    ensures Wrapped(Wrapped(hash * 31 + unit, HALF) * p + rest, HALF)
         == Wrapped(hash * (31 * p) + (unit * p + rest), HALF)
  {
    var sum := hash * 31 + unit;
    WrappedSummand(Wrapped(sum, HALF) * p, rest, HALF);
    WrappedTwice(sum, p, rest, HALF);
    Expand(hash, unit, p);
  }

  lemma Expand(hash: int, unit: int, p: int)
    ensures (hash * 31 + unit) * p == hash * (31 * p) + unit * p
  {
  }

  /** The hash is the documented polynomial as a signed 32-bit value. */
  lemma HashIsPolynomial(units: seq<int>)
    ensures Hash(units) == Wrapped(Polynomial(units), HALF)
  {
    HashFromIsPolynomial(0, units);
  }

  lemma {:induction false} HashFromConcat(hash: int, s: seq<int>, t: seq<int>)
    ensures HashFrom(hash, s + t) == HashFrom(HashFrom(hash, s), t)
    decreases |s|
  {
    if s == [] {
      assert s + t == t;
    } else {
      assert (s + t)[1..] == s[1..] + t;
      HashFromConcat(Wrapped(Wrapped(hash * 31, HALF) + s[0], HALF), s[1..], t);
    }
  }

  /** The hash of a concatenation from the hashes of its halves. */
  lemma HashConcat(s: seq<int>, t: seq<int>)
    ensures Hash(s + t) == Wrapped(Hash(s) * Power(31, |t|) + Hash(t), HALF)
  {
    hide HashFrom, Power, Polynomial, Wrapped;
    HashIsPolynomial(s);
    HashIsPolynomial(t);
    HashFromConcat(0, s, t);
    HashFromIsPolynomial(Hash(s), t);
    WrappedSummand(Hash(s) * Power(31, |t|), Polynomial(t), HALF);
  }

  /** The hash is a signed 32-bit number, and differs from the polynomial by a multiple of 2^32. */
  lemma HashFits(units: seq<int>) returns (k: int)
    ensures -0x8000_0000 <= Hash(units) < 0x8000_0000
    ensures Hash(units) == Polynomial(units) - k * 0x1_0000_0000
  {
    HashIsPolynomial(units);
    k := WrappedBy(Polynomial(units), HALF);
  }
}
