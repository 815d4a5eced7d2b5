/** Facts about Euclidean division of natural numbers that the phase
    counter and the frame arithmetic rely on. */
module Arithmetic {

  /** Reducing before or after adding one gives the same remainder. */
  lemma ModSucc(x: nat, m: nat)
    requires 0 < m
    ensures (x % m + 1) % m == (x + 1) % m
  {
    var q, r := x / m, x % m;
    assert x == q * m + r;
    if r + 1 < m {
      DivMod(x + 1, m, q, r + 1);
    } else {
      assert x + 1 == (q + 1) * m;
      DivMod(x + 1, m, q + 1, 0);
    }
  }

  /** Quotient and remainder are determined by the division identity. */
  lemma DivMod(x: nat, m: nat, q: nat, r: nat)
    requires 0 <= r < m && x == q * m + r
    ensures x / m == q && x % m == r
  {
    var q', r' := x / m, x % m;
    assert (q - q') * m == r' - r;
    if q > q' {
      MulAtLeast(q - q', m);
    } else if q < q' {
      MulAtLeast(q' - q, m);
    }
  }

  /** A positive multiple of `m` is at least `m`. */
  lemma MulAtLeast(a: int, m: nat)
    requires 1 <= a
    ensures a * m >= m
  {
  }

  /** The division identity for a natural number and a positive divisor. */
  lemma Split(x: nat, m: nat)
    requires 0 < m
    ensures x == (x / m) * m + x % m && x % m < m
  {
  }

  /** Adding the divisor adds one to the quotient and keeps the remainder. */
  lemma DivShift(x: nat, m: nat)
    requires 0 < m
    ensures (x + m) / m == x / m + 1 && (x + m) % m == x % m
  {
    Split(x, m);
    assert x + m == (x / m + 1) * m + x % m;
    DivMod(x + m, m, x / m + 1, x % m);
  }

  /** One more factor adds one more `m`. */
  lemma MulSucc(k: nat, m: nat)
    ensures (k + 1) * m == k * m + m
  {
  }
}
