/** Products, quotients and sizes the solver needs to be told about. */
module Arithmetic {
  lemma {:induction false} MulMonotone(x: int, y: int, b: nat)
    ensures x <= y ==> x * b <= y * b
  {
  }

  /** A quotient and a remainder that fit are the quotient and the remainder. */
  lemma {:induction false} DivideUnique(m: int, p: nat, q: int, r: nat)
    requires p > 0 && m == q * p + r && r < p
    ensures m / p == q && m % p == r
  {
    MulMonotone(m / p + 1, q, p);
    MulMonotone(q + 1, m / p, p);
  }

  lemma {:induction false} SubsetSize<T>(a: set<T>, b: set<T>)
    requires a <= b
    ensures |a| <= |b|
  {
    assert b == a + (b - a);
  }
}
