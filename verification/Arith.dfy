/** Small facts about multiplication and division that the solver is not left to find. */
module Arith {

  lemma MulGap(a: int, b: int, d: int)
    requires d >= 0
    ensures a < b ==> a * d + d <= b * d
    ensures a <= b ==> a * d <= b * d
  {
    if a < b {
      assert b * d == (a + 1) * d + (b - a - 1) * d;
    }
  }

  lemma DivMod(n: int, d: int)
    requires d > 0
    ensures n == (n / d) * d + n % d && 0 <= n % d < d
  {
  }

  /** Quotient and remainder are determined by their defining equation. */
  lemma DivUnique(n: int, d: int, q: int, r: int)
    requires d > 0 && n == q * d + r && 0 <= r < d
    ensures n / d == q && n % d == r
  {
    DivMod(n, d);
    MulGap(q, n / d, d);
    MulGap(n / d, q, d);
  }

  lemma DivBounds(n: nat, d: nat)
    requires d > 0
    ensures 0 <= n / d <= n
    ensures n >= d ==> n / d >= 1
  {
    DivMod(n, d);
    MulGap(n / d, 1, d);
    MulGap(1, d, n / d);
    MulGap(n / d, 0, d);
  }

  /** A dividend larger by at least the divisor has a larger quotient. */
  lemma DivStep(x: int, y: int, d: int)
    requires d > 0 && x + d <= y
    ensures x / d < y / d
  {
    DivMod(x, d);
    DivMod(y, d);
    MulGap(y / d, x / d, d);
    if x / d == y / d {
      assert (x / d) * d == (y / d) * d;
    }
  }

  lemma DivAtMost(x: int, d: int, q: int)
    requires d > 0 && x < (q + 1) * d
    ensures x / d <= q
  {
    DivMod(x, d);
    MulGap(q, x / d, d);
    MulGap(q + 1, x / d, d);
  }
}
