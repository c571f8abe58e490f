/** Arithmetic the models share. */
module Arith {

  const WORD_LIMIT := 0x1_0000_0000

  /** A sum of unsigned words in 32 bits; the sums here wrap at most once. */
  function Sum32(x: int): int { if x < WORD_LIMIT then x else x - WORD_LIMIT }

  function Min(a: int, b: int): int { if a < b then a else b }

  function Max(a: int, b: int): int { if a > b then a else b }

  /** Quotient and remainder are unique. */
  lemma DivUnique(x: int, a: int, q: int, r: int)
    requires 0 < a && x == q * a + r && 0 <= r < a
    ensures x / a == q && x % a == r
  {
    var d, s := x / a - q, x % a;
    assert x == (x / a) * a + s;
    assert d * a == (x / a) * a - q * a;
    assert d * a == r - s;
    MulGrows(d, a);
  }

  lemma MulGrows(d: int, a: int)
    requires 0 < a
    ensures d >= 1 ==> d * a >= a
    ensures d <= -1 ==> d * a <= -a
  {
    if d >= 1 { assert d * a == a + (d - 1) * a; }
    if d <= -1 { assert d * a == -a + (d + 1) * a; }
  }

  /** Rounding down and up to a multiple. */
  function RoundDown(x: int, a: int): int
    requires 0 < a
  {
    x - x % a
  }

  function RoundUp(x: int, a: int): int
    requires 0 < a
  {
    RoundDown(x + (a - 1), a)
  }

  /** Adding the divisor keeps the remainder, and removing the remainder gives a multiple. */
  lemma ModStep(x: int, a: int)
    requires 0 < a
    ensures (x + a) % a == x % a && (x - x % a) % a == 0
  {
    var q, r := x / a, x % a;
    assert x == q * a + r;
    assert (q + 1) * a == q * a + a;
    DivUnique(x + a, a, q + 1, r);
    DivUnique(x - r, a, q, 0);
  }
}
