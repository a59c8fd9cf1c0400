/** Small integer functions, and the facts about products that the solver is not left to find. */
module Arithmetic {

  function Max(a: int, b: int): (m: int)
    ensures m >= a && m >= b
  {
    if a >= b then a else b
  }

  function Min(a: int, b: int): (m: int)
    ensures m <= a && m <= b
  {
    if a <= b then a else b
  }

  function Abs(x: int): nat {
    if x < 0 then -x else x
  }

  lemma {:induction false} ProductNonNegative(a: nat, b: nat)
    ensures a * b >= 0
  {
    if a > 0 {
      ProductNonNegative(a - 1, b);
      ProductSum(a - 1, 1, b);
    }
  }

  lemma ProductSum(a: int, b: int, c: int)
    ensures (a + b) * c == a * c + b * c
  {
  }

  lemma ProductMonotone(a: int, b: int, d: int)
    requires a <= b && d >= 0
    ensures a * d <= b * d
  {
    ProductNonNegative(b - a, d);
    ProductSum(a, b - a, d);
  }

  /** Between two multiples of d there is room for d. */
  lemma MultiplesApart(p: int, q: int, d: int)
    requires p < q && d >= 0
    ensures p * d + d <= q * d
  {
    ProductSum(p, 1, d);
    ProductMonotone(p + 1, q, d);
  }

  lemma TwiceProduct(a: int, b: int)
    ensures 2 * (a * b) == (2 * a) * b == a * (2 * b)
  {
  }
}
