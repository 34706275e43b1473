/**
  The values that flow through the stroke-to-feature pipeline.
 */
module Points {

  /** A raw recorded sample `Triple<Int, Int, Int>`: pixel position and pen state. */
  datatype Sample = Sample(x: int, y: int, status: int)

  /** A raw or resampled point `Pair<Int, Int>`. */
  datatype IntPoint = IntPoint(x: int, y: int)

  /** A window-normalised point `Pair<Double, Double>`. */
  datatype Point = Point(x: real, y: real)

  const Origin := Point(0.0, 0.0)

  /** The last element of a non-empty list (Kotlin `List.last()`). */
  function Last<T>(s: seq<T>): T
    requires s != []
  {
    s[|s| - 1]
  }
}
