/** The C library's rounding and remainder functions over the reals. */
module RealMath {

  function Abs(x: real): (r: real)
    ensures r >= 0.0
  {
    if x < 0.0 then -x else x
  }

  /** std::clamp */
  function Clamp(x: real, lo: real, hi: real): real {
    if x < lo then lo else if hi < x then hi else x
  }

  function MinReal(x: real, y: real): real { if x < y then x else y }

  /** lround: to the nearest integer, halves away from zero. */
  function LRound(x: real): (n: int)
    ensures x - 0.5 <= n as real <= x + 0.5
  {
    if x >= 0.0 then (x + 0.5).Floor else -(0.5 - x).Floor
  }

  /** To the nearest integer, halves to the even one. */
  function RoundHalfEven(x: real): (n: int)
    ensures x - 0.5 <= n as real <= x + 0.5
  {
    var n := x.Floor;
    var f := x - n as real;
    if f < 0.5 || (f == 0.5 && n % 2 == 0) then n else n + 1
  }

  /** Where two integers are equally near, lround takes the one further from zero and remainder the even one. */
  lemma TiesAreRounded(x: real)
    ensures LRound(x) as real == x + 0.5 ==> x > 0.0
    ensures LRound(x) as real == x - 0.5 ==> x < 0.0
    ensures RoundHalfEven(x) as real == x + 0.5 || RoundHalfEven(x) as real == x - 0.5 ==> RoundHalfEven(x) % 2 == 0
  {
    TiesAwayFromZero(x);
    TiesToEven(x);
    hide LRound, RoundHalfEven;
  }

  lemma TiesAwayFromZero(x: real)
    ensures LRound(x) as real == x + 0.5 ==> x > 0.0
    ensures LRound(x) as real == x - 0.5 ==> x < 0.0
  {
    if x >= 0.0 {
      var n := (x + 0.5).Floor;
      assert n as real > x - 0.5;
    } else {
      var n := (0.5 - x).Floor;
      assert n as real > -x - 0.5;
    }
  }

  lemma TiesToEven(x: real)
    ensures RoundHalfEven(x) as real == x + 0.5 || RoundHalfEven(x) as real == x - 0.5 ==> RoundHalfEven(x) % 2 == 0
  {
    var n := x.Floor;
    var f := x - n as real;
    assert 0.0 <= f < 1.0;
    if f == 0.5 && n % 2 != 0 {
      assert RoundHalfEven(x) == n + 1;
    }
  }

  /** fmod: what is left after removing whole multiples of y, with the sign of x. */
  function Fmod(x: real, y: real): real
    requires y > 0.0
  {
    if x >= 0.0 then x - y * (x / y).Floor as real else x + y * (-x / y).Floor as real
  }

  /** remainder: the distance to the nearest whole multiple of y. */
  function Remainder(x: real, y: real): real
    requires y > 0.0
  {
    x - y * RoundHalfEven(x / y) as real
  }

  function Ceil(x: real): int { -(-x).Floor }

  // ---- products and quotients ----------------------------------------------------------------------

  lemma NotNegative(a: real, b: real)
    requires a >= 0.0 && b >= 0.0
    ensures a * b >= 0.0
  {}

  lemma Positive(a: real, b: real)
    requires a > 0.0 && b > 0.0
    ensures a * b > 0.0
  {}

  lemma SignOfProduct(x: real, a: real)
    requires a > 0.0
    ensures x < 0.0 <==> x * a < 0.0
  {
    if x < 0.0 {
      assert x * a < 0.0;
    } else {
      assert x * a >= 0.0;
    }
  }

  lemma QuotientAtMost(x: real, y: real, q: real)
    requires y > 0.0 && x <= q * y
    ensures x / y <= q
  {}

  lemma AbsOfProduct(x: real, a: real)
    requires a >= 0.0
    ensures Abs(x * a) == Abs(x) * a
  {
    if a > 0.0 { SignOfProduct(x, a); }
  }

  // ---- fmod and remainder --------------------------------------------------------------------------

  lemma ShareOf(d: real, y: real)
    requires y > 0.0 && 0.0 <= d < 1.0
    ensures 0.0 <= d * y < y
  {
    NotNegative(d, y);
    Positive(1.0 - d, y);
    assert (1.0 - d) * y == y - d * y;
  }

  lemma RemainderBounds(q: real, n: real, x: real, y: real)
    requires y > 0.0 && q * y == x && n <= q < n + 1.0
    ensures 0.0 <= x - y * n < y
  {
    var d := q - n;
    ShareOf(d, y);
    assert d * y == q * y - y * n;
    assert d * y == x - y * n;
  }

  lemma FloorOfQuotient(x: real, y: real) returns (n: int)
    requires y > 0.0 && x >= 0.0
    ensures n == (x / y).Floor && 0.0 <= x - y * n as real < y
  {
    n := (x / y).Floor;
    RemainderBounds(x / y, n as real, x, y);
  }

  /** fmod stays strictly within one divisor of zero and differs from x by whole divisors. */
  lemma FmodRange(x: real, y: real) returns (k: int)
    requires y > 0.0
    ensures -y < Fmod(x, y) < y
    ensures Fmod(x, y) == x + y * k as real
  {
    if x >= 0.0 {
      var n := FloorOfQuotient(x, y);
      k := -n;
      assert y * k as real == -(y * n as real);
    } else {
      var n := FloorOfQuotient(-x, y);
      k := n;
    }
  }

  /** remainder differs from x by whole divisors. */
  lemma RemainderIsWhole(x: real, y: real) returns (k: int)
    requires y > 0.0
    ensures Remainder(x, y) == x + y * k as real
  {
    k := -RoundHalfEven(x / y);
    assert y * k as real == -(y * RoundHalfEven(x / y) as real);
  }

  /** remainder is at most half a divisor away from zero. */
  lemma RemainderIsSmall(x: real, half: real)
    requires half > 0.0
    ensures -half <= Remainder(x, 2.0 * half) <= half
  {
    var y := 2.0 * half;
    var q := x / y;
    var d := q - RoundHalfEven(q) as real;
    assert q * y == x;
    assert d * y == x - y * RoundHalfEven(q) as real;
    NotNegative(0.5 - d, y);
    NotNegative(d + 0.5, y);
    assert (0.5 - d) * y == half - d * y;
    assert (d + 0.5) * y == d * y + half;
  }
}
