/** Small shared arithmetic. */
module Arithmetic {

  function Abs(x: real): real { if x >= 0.0 then x else -x }

  /** The larger of two measures. */
  function Larger(x: real, y: real): real { if x >= y then x else y }

  function Min(a: int, b: int): int { if a <= b then a else b }

  function Max(a: int, b: int): int { if a >= b then a else b }

  lemma Distribute(a: int, b: int, d: int)
    ensures (a + b) * d == a * d + b * d
  {
  }

  lemma Commute(a: int, b: int)
    ensures a * b == b * a
  {
  }
}
