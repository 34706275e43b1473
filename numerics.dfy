/**
  Numeric primitives the feature pipeline relies on.

  Kotlin `Double` arithmetic is modelled on `real` (exact), Kotlin `Int` on `int`
  (unbounded). The two library roundings are written out; the square root is a
  foreign library call and is passed in as a parameter, of which only the laws
  in `SqrtLaws` are assumed.
 */
module Numerics {

  /** `kotlin.math.round`: the nearest integer, with ties going to the even neighbour. */
  function RoundHalfEven(v: real): (r: int)
    ensures -0.5 <= r as real - v <= 0.5
    ensures v == v.Floor as real ==> r == v.Floor
    ensures v - v.Floor as real == 0.5 ==> r % 2 == 0
  {
    var f := v.Floor;
    var d := v - f as real;
    if d < 0.5 then f
    else if d > 0.5 then f + 1
    else if f % 2 == 0 then f else f + 1
  }

  /** `round(v * 100) / 100`: the value kept to two decimals. */
  function Round2(v: real): (r: real)
    ensures -0.005 <= r - v <= 0.005
    ensures v == 0.0 ==> r == 0.0
    ensures v >= 0.0 ==> r >= 0.0
  {
    RoundHalfEven(v * 100.0) as real / 100.0
  }

  /** `Double.roundToInt()`: the nearest integer, with ties going up. */
  function RoundToInt(v: real): (r: int)
    ensures -0.5 < r as real - v <= 0.5
  {
    (v + 0.5).Floor
  }

  /** Rounding a value that lies between two integers stays between them. */
  lemma RoundToIntBetween(v: real, lo: int, hi: int)
    requires lo as real <= v <= hi as real
    ensures lo <= RoundToInt(v) <= hi
  {
    var r := RoundToInt(v);
    assert r as real > v - 0.5 >= lo as real - 0.5;
    assert r as real <= v + 0.5 <= hi as real + 0.5;
  }

  /** An integer is its own rounding. */
  lemma RoundToIntOfInt(k: int)
    ensures RoundToInt(k as real) == k
  {
    var r := RoundToInt(k as real);
    assert k as real - 0.5 < r as real <= k as real + 0.5;
  }

  function Min(a: int, b: int): int { if a <= b then a else b }
  function Max(a: int, b: int): int { if a >= b then a else b }

  /** The laws of `kotlin.math.sqrt` that the model relies on. */
  ghost predicate SqrtLaws(sqrt: real -> real)
  {
    && sqrt(0.0) == 0.0
    && forall v :: 0.0 <= v ==> 0.0 <= sqrt(v)
  }
}
