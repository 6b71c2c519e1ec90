/** The few facts about division with remainder the index arithmetic needs. */
module Modular {

  lemma Distribute(a: int, b: int, m: int)
    ensures (a + b) * m == a * m + b * m
  {
  }

  lemma MulMono(a: int, b: int, m: nat)
    requires a <= b
    ensures a * m <= b * m
  {
  }

  /** Quotient and remainder are determined by the division equation. */
  lemma DivModUnique(n: int, q: int, m: nat, r: int)
    requires 0 < m && n == q * m + r && 0 <= r < m
    ensures n % m == r && n / m == q
  {
    Distribute(n / m, -q, m);
    if n / m > q {
      MulMono(1, n / m - q, m);
    } else if n / m < q {
      MulMono(1, q - n / m, m);
    }
  }

  lemma ModPlusMultiple(n: int, q: int, m: nat)
    requires 0 < m
    ensures (n + q * m) % m == n % m
  {
    Distribute(n / m, q, m);
    DivModUnique(n + q * m, n / m + q, m, n % m);
  }

  /** Distinct numbers less than m apart have distinct remainders. */
  lemma ModApart(i: nat, j: nat, m: nat)
    requires 0 < m && i < j < i + m
    ensures i % m != j % m
  {
    if i % m == j % m {
      Distribute(j / m, -(i / m), m);
      if j / m > i / m {
        MulMono(1, j / m - i / m, m);
      } else {
        MulMono(j / m - i / m, 0, m);
      }
    }
  }
}
