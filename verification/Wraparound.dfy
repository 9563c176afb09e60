/** Two's complement wrap-around, to any width. */
module Wraparound {
  /** `n` wrapped to the signed range of 2 * half values. */
  function Wrapped(n: int, half: int): (w: int)
    requires half > 0
    ensures -half <= w < half
    ensures -half <= n < half ==> w == n
  {
    if -half <= n < half then n else (n + half) % (2 * half) - half
  }

  /** How often the range was left. */
  lemma WrappedBy(n: int, half: int) returns (k: int)
    requires half > 0
    ensures Wrapped(n, half) == n - k * (2 * half)
  {
    if -half <= n < half {
      k := 0;
    } else {
      k := (n + half) / (2 * half);
      assert n + half == k * (2 * half) + (n + half) % (2 * half);
    }
  }

  /** The wrapped value is the only one of the range that differs by a multiple of its size. */
  lemma WrappedUnique(n: int, k: int, half: int)
    requires half > 0 && -half <= n - k * (2 * half) < half
    ensures Wrapped(n, half) == n - k * (2 * half)
  {
    var j := WrappedBy(n, half);
    var m := 2 * half;
    assert (j - k) * m == j * m - k * m;
    if j > k {
      MultipleAtLeast(j - k, m);
    } else if j < k {
      assert (k - j) * m == k * m - j * m;
      MultipleAtLeast(k - j, m);
    }
  }

  lemma MultipleAtLeast(d: int, m: int)
    requires d >= 1 && m >= 0
    ensures d * m >= m
  {
  }

  lemma WrappedShift(n: int, j: int, half: int)
    requires half > 0
    ensures Wrapped(n + j * (2 * half), half) == Wrapped(n, half)
  {
    var k := WrappedBy(n, half);
    assert (k + j) * (2 * half) == k * (2 * half) + j * (2 * half);
    WrappedUnique(n + j * (2 * half), k + j, half);
  }

  /** Wrapping a summand first makes no difference. */
  lemma WrappedSummand(a: int, c: int, half: int)
    requires half > 0
    ensures Wrapped(a + Wrapped(c, half), half) == Wrapped(a + c, half)
  {
    var k := WrappedBy(c, half);
    assert (-k) * (2 * half) == -(k * (2 * half));
    WrappedShift(a + c, -k, half);
  }

  /** Wrapping an operand of a product and a sum first makes no difference. */
  lemma WrappedTwice(a: int, b: int, c: int, half: int)
    requires half > 0
    ensures Wrapped(Wrapped(a, half) * b + Wrapped(c, half), half) == Wrapped(a * b + c, half)
  {
    var k := WrappedBy(a, half);
    var l := WrappedBy(c, half);
    var m := 2 * half;
    var j := -(k * b) - l;
    calc {
      Wrapped(a, half) * b + Wrapped(c, half);
      (a - k * m) * b + (c - l * m);
      { Distribute(a, k, m, b); }
      a * b - (k * b) * m + c - l * m;
      { Collect(k * b, l, m); }
      a * b + c + j * m;
    }
    WrappedShift(a * b + c, j, half);
  }

  lemma Distribute(a: int, k: int, m: int, b: int)
    ensures (a - k * m) * b == a * b - (k * b) * m
  {
    assert (k * m) * b == (k * b) * m;
  }

  lemma Collect(x: int, l: int, m: int)
    ensures -(x * m) - l * m == (-x - l) * m
  {
  }
}
