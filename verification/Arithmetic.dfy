/** Steps of real arithmetic that the solver is better asked one at a time. */
module Arithmetic {

  lemma MulOrder(x: real, y: real, l: real)
    requires l > 0.0
    ensures x < y <==> x * l < y * l
  {
  }

  lemma DivMul(t: real, l: real)
    requires l != 0.0
    ensures t / l * l == t
  {
  }

  lemma CastProduct(x: int, y: int)
    ensures (x * y) as real == x as real * y as real
  {
  }
}
