/** The smaller and the larger of two numbers, and facts about products and quotients that
    the solver needs one at a time. */
module Arithmetic {

  function Min(a: int, b: int): int { if a < b then a else b }

  function Max(a: int, b: int): int { if a > b then a else b }

  lemma LessFactor(x: int, y: int, n: int)
    requires n > 0 && x * n < y * n
    ensures x < y
  {
  }

  lemma Quotient(t: nat, m: nat)
    requires m > 0
    ensures 0 <= t / m && t / m * m <= t < (t / m + 1) * m
  {
  }

  lemma Product(x: nat, y: nat)
    ensures x * y >= 0 && (x > 0 && y > 0 ==> x * y > 0)
  {
  }

  lemma MulMonotonic(a: int, b: int, c: nat)
    requires a <= b
    ensures a * c <= b * c
  {
  }

  lemma DivMonotonic(s: nat, t: nat, m: nat)
    requires m > 0 && s <= t
    ensures s / m <= t / m
  {
    Quotient(s, m);
    Quotient(t, m);
    LessFactor(s / m, t / m + 1, m);
  }

  lemma DivStep(s: nat, m: nat)
    requires m > 0
    ensures (s + m) / m == s / m + 1
  {
    Quotient(s, m);
    Quotient(s + m, m);
    assert (s / m + 1) * m == s / m * m + m;
    assert (s / m + 2) * m == (s / m + 1) * m + m;
    LessFactor((s + m) / m, s / m + 2, m);
    LessFactor(s / m + 1, (s + m) / m + 1, m);
  }
}
