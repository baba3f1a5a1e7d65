/** Small definitions shared by every part of the dashboard model. */
module Common {

  datatype Option<+T> = None | Some(value: T)

  /** Entity identifiers; the dashboard makes them from the clock and a random suffix. */
  type Id = string

  /** A calendar day, counted in days from 1970-01-01. */
  type Day = int

  /** An amount of money in euro cents. */
  type Money = int

  function Max(a: int, b: int): (m: int)
    ensures m >= a && m >= b && (m == a || m == b)
  {
    if a >= b then a else b
  }

  function Min(a: int, b: int): (m: int)
    ensures m <= a && m <= b && (m == a || m == b)
  {
    if a <= b then a else b
  }

  /**
   * `Math.round(p / q)` evaluated exactly: the integer nearest to p/q, with
   * halves rounded towards positive infinity.
   */
  function RoundDiv(p: int, q: int): (r: int)
    requires q != 0
    ensures q > 0 ==> 2 * q * r - q <= 2 * p < 2 * q * r + q
    ensures q < 0 ==> 2 * q * r - q >= 2 * p > 2 * q * r + q
  {
    if q > 0 then
      var n, d := 2 * p + q, 2 * q;
      assert n == d * (n / d) + n % d;
      n / d
    else
      var n, d := -2 * p - q, -2 * q;
      assert n == d * (n / d) + n % d;
      n / d
  }

  /** Multiplying by a positive factor preserves order, in both directions. */
  lemma CancelPositive(q: int, a: int, b: int)
    requires q > 0 && q * a <= q * b
    ensures a <= b
  {
    var d := b - a;
    assert q * d == q * b - q * a;
    assert q * d >= 0;
  }

  lemma MultiplyMonotone(q: int, a: int, b: int)
    requires q >= 0 && a <= b
    ensures q * a <= q * b
  {
    assert q * b - q * a == q * (b - a);
  }

  lemma CancelPositiveStrict(q: int, a: int, b: int)
    requires q > 0 && q * a < q * b
    ensures a < b
  {
    var d := b - a;
    assert q * d == q * b - q * a;
  }

  /** Integers that bracket p/q also bracket its rounding. */
  lemma RoundDivBetween(p: int, q: int, lo: int, hi: int)
    requires q > 0 && lo * q <= p <= hi * q
    ensures lo <= RoundDiv(p, q) <= hi
  {
    var r := RoundDiv(p, q);
    assert q * (2 * lo) < q * (2 * r + 1);
    CancelPositiveStrict(q, 2 * lo, 2 * r + 1);
    assert q * (2 * r - 1) <= q * (2 * hi);
    CancelPositive(q, 2 * r - 1, 2 * hi);
  }

  /** The rounding is the only integer within one half of p/q (halves going up). */
  lemma RoundDivUnique(p: int, q: int, r: int)
    requires q > 0 && 2 * q * r - q <= 2 * p < 2 * q * r + q
    ensures RoundDiv(p, q) == r
  {
    var r0 := RoundDiv(p, q);
    assert q * (2 * r0 - 1) < q * (2 * r + 1);
    CancelPositiveStrict(q, 2 * r0 - 1, 2 * r + 1);
    assert q * (2 * r - 1) < q * (2 * r0 + 1);
    CancelPositiveStrict(q, 2 * r - 1, 2 * r0 + 1);
  }

  /** Rounding is monotone in the numerator. */
  lemma RoundDivMonotone(p1: int, p2: int, q: int)
    requires q > 0 && p1 <= p2
    ensures RoundDiv(p1, q) <= RoundDiv(p2, q)
  {
    var r1, r2 := RoundDiv(p1, q), RoundDiv(p2, q);
    assert q * (2 * r1 - 1) < q * (2 * r2 + 1);
    CancelPositiveStrict(q, 2 * r1 - 1, 2 * r2 + 1);
  }

  /** The characters String.prototype.trim strips: white space and line terminators. */
  predicate IsWhitespace(c: char)
  {
    c == ' ' || c == '\t' || c == '\n' || c == '\r' || c == '\U{000B}' || c == '\U{000C}'
    || c == '\U{00A0}' || c == '\U{1680}' || ('\U{2000}' <= c <= '\U{200A}')
    || c == '\U{2028}' || c == '\U{2029}' || c == '\U{202F}' || c == '\U{205F}'
    || c == '\U{3000}' || c == '\U{FEFF}'
  }

  /** `!s.trim()`: the string is empty once trimmed. */
  predicate IsBlank(s: string)
  {
    forall i :: 0 <= i < |s| ==> IsWhitespace(s[i])
  }
}
