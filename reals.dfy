/** Facts about real arithmetic that the solver does not find unaided,
    stated once for the projection and the progress percentage. */
module Reals {

  /** Casting to real commutes with multiplication. */
  lemma CastProduct(a: int, b: int)
    ensures (a * b) as real == a as real * b as real
  {
  }

  /** Multiplying by a positive c keeps <= and < in both directions. */
  lemma MultiplyPositive(a: real, b: real, c: real)
    requires c > 0.0
    ensures a <= b <==> a * c <= b * c
    ensures a < b <==> a * c < b * c
  {
  }

  /** Dividing by a non-zero b and multiplying back cancel. */
  lemma DivideMultiply(a: real, b: real)
    requires b != 0.0
    ensures (a / b) * b == a
  {
  }

  /** Multiplying by a non-zero b and dividing back cancel. */
  lemma MultiplyDivide(a: real, b: real)
    requires b != 0.0
    ensures a * b / b == a
  {
  }

  /** Multiplication of reals is associative. */
  lemma Associate(a: real, b: real, c: real)
    ensures a * b * c == a * (b * c)
  {
  }

  /** A product of two non-zero reals is non-zero. */
  lemma NonZeroProduct(a: real, b: real)
    requires a != 0.0 && b != 0.0
    ensures a * b != 0.0
  {
  }

  /** Multiplying lo <= x < hi by a positive c keeps both bounds. */
  lemma BoundsTimesPositive(lo: real, x: real, hi: real, c: real)
    requires c > 0.0 && lo <= x < hi
    ensures lo * c <= x * c < hi * c
  {
    MultiplyPositive(lo, x, c);
    MultiplyPositive(x, hi, c);
  }
}
