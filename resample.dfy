/**
  Resampling of a point list. Two resamplers exist side by side:

  * `NormalizeTo100Points` (`normalizeTo100Points`), true linear resampling
    along the point index to exactly 100 points. Nothing calls it.
  * `InterpolatePointsToTargetCount` (`interpolatePointsToTargetCount`), the one
    the pipeline calls: every segment is split into the same number of pieces,
    the final point is appended, and the list is then cut or padded to the
    target count.
 */
module Resampling {
  import opened Numerics
  import opened Points

  /** `v` lies between `a` and `b`, in either order. */
  predicate Between(v: int, a: int, b: int)
  {
    Min(a, b) <= v <= Max(a, b)
  }

  // ---------------------------------------------------------------------------
  // normalizeTo100Points

  /** Continuous source position of output index `i`: `i * (n - 1) / 99`. */
  function SourceIndex(i: nat, n: nat): (index: real)
    ensures i == 0 ==> index == 0.0
    ensures 1 <= n && i == 99 ==> index == (n - 1) as real
  {
    (i * (n - 1)) as real / 99.0
  }

  /** `index.toInt()` (truncation; the index is never negative here). */
  function LowerIndex(i: nat, n: nat): (lower: nat)
    requires 1 <= n && i < 100
    ensures lower <= n - 1
    ensures lower as real <= SourceIndex(i, n) < lower as real + 1.0
  {
    SourceIndexBounds(i, n);
    SourceIndex(i, n).Floor
  }

  /** The source position of an output index lies in `[0, n - 1]`. */
  lemma SourceIndexBounds(i: nat, n: nat)
    requires 1 <= n && i < 100
    ensures 0.0 <= SourceIndex(i, n) <= (n - 1) as real
  {
    var m: nat := n - 1;
    assert 0 <= i * m <= 99 * m by {
      MulLeftMono(i, 99, m);
    }
    assert (99 * m) as real / 99.0 == m as real;
  }

  /** `a <= b` and `0 <= m` give `a * m <= b * m`. */
  lemma MulLeftMono(a: nat, b: nat, m: nat)
    requires a <= b
    ensures a * m <= b * m
  {
    assert b * m == a * m + (b - a) * m;
  }

  /** `(lowerIndex + 1).coerceAtMost(n - 1)`. */
  function UpperIndex(i: nat, n: nat): (upper: nat)
    requires 1 <= n && i < 100
    ensures LowerIndex(i, n) <= upper <= n - 1
    ensures upper <= LowerIndex(i, n) + 1
  {
    Min(LowerIndex(i, n) + 1, n - 1)
  }

  /** `(1 - fraction) * a + fraction * b`: a point on the way from `a` to `b`. */
  function Lerp(a: int, b: int, fraction: real): (v: real)
    requires 0.0 <= fraction <= 1.0
    ensures Min(a, b) as real <= v <= Max(a, b) as real
    ensures fraction == 0.0 ==> v == a as real
  {
    ConvexCombinationBetween(a, b, fraction);
    (1.0 - fraction) * a as real + fraction * b as real
  }

  /** `((1 - fraction) * a + fraction * b).roundToInt()`. */
  function Blend(a: int, b: int, fraction: real): (r: int)
    requires 0.0 <= fraction <= 1.0
    ensures Between(r, a, b)
    ensures fraction == 0.0 ==> r == a
  {
    var v := Lerp(a, b, fraction);
    RoundToIntBetween(v, Min(a, b), Max(a, b));
    RoundToIntOfInt(a);
    RoundToInt(v)
  }

  /** A convex combination of two integers lies between them. */
  lemma ConvexCombinationBetween(a: int, b: int, fraction: real)
    requires 0.0 <= fraction <= 1.0
    ensures Min(a, b) as real <= (1.0 - fraction) * a as real + fraction * b as real <= Max(a, b) as real
  {
    var x, y := a as real, b as real;
    var d := fraction * (y - x);
    assert (1.0 - fraction) * x + fraction * y == x + d;
    if a <= b {
      ProductNonNegative(fraction, y - x);
      ProductNonNegative(1.0 - fraction, y - x);
      assert (y - x) - d == (1.0 - fraction) * (y - x);
    } else {
      ProductNonNegative(fraction, x - y);
      ProductNonNegative(1.0 - fraction, x - y);
      assert d - (y - x) == (1.0 - fraction) * (x - y);
    }
  }

  lemma ProductNonNegative(x: real, y: real)
    requires 0.0 <= x && 0.0 <= y
    ensures 0.0 <= x * y
  {
  }

  /** Output point `i` of `normalizeTo100Points`. */
  function Resample100At(points: seq<IntPoint>, i: nat): (p: IntPoint)
    requires |points| >= 1 && i < 100
    ensures Between(p.x, points[LowerIndex(i, |points|)].x, points[UpperIndex(i, |points|)].x)
    ensures Between(p.y, points[LowerIndex(i, |points|)].y, points[UpperIndex(i, |points|)].y)
  {
    var n := |points|;
    var lower := LowerIndex(i, n);
    var upper := UpperIndex(i, n);
    var fraction := SourceIndex(i, n) - lower as real;
    IntPoint(Blend(points[lower].x, points[upper].x, fraction),
             Blend(points[lower].y, points[upper].y, fraction))
  }

  /** The first and last output points are the first and last input points. */
  lemma Resample100Endpoints(points: seq<IntPoint>)
    requires |points| >= 1
    ensures Resample100At(points, 0) == points[0]
    ensures Resample100At(points, 99) == Last(points)
  {
    var n := |points|;
    assert SourceIndex(0, n) == 0.0;
    assert LowerIndex(0, n) == 0;
    assert SourceIndex(99, n) == (n - 1) as real;
    assert LowerIndex(99, n) == n - 1;
    assert UpperIndex(99, n) == n - 1;
  }

  /** `normalizeTo100Points`. The Kotlin function throws on an empty list (it reads `points[0]`). */
  method NormalizeTo100Points(points: seq<IntPoint>) returns (normalizedList: seq<IntPoint>)
    requires |points| >= 1
    ensures |normalizedList| == 100
    ensures forall i :: 0 <= i < 100 ==> normalizedList[i] == Resample100At(points, i)
    ensures normalizedList[0] == points[0] && normalizedList[99] == Last(points)
  {
    var n := |points|;
    normalizedList := [];
    for i := 0 to 100
      invariant |normalizedList| == i
      invariant forall k :: 0 <= k < i ==> normalizedList[k] == Resample100At(points, k)
    {
      var index := SourceIndex(i, n);
      var lowerIndex := LowerIndex(i, n);
      var upperIndex := Min(lowerIndex + 1, n - 1);
      var fraction := index - lowerIndex as real;
      var x := Blend(points[lowerIndex].x, points[upperIndex].x, fraction);
      var y := Blend(points[lowerIndex].y, points[upperIndex].y, fraction);
      normalizedList := normalizedList + [IntPoint(x, y)];
    }
    Resample100Endpoints(points);
  }

  // ---------------------------------------------------------------------------
  // interpolatePointsToTargetCount

  /** `maxOf(1, targetCount / totalSegments)`: how many points each segment contributes. */
  function PointsPerSegment(targetCount: int, totalSegments: int): (pps: int)
    requires totalSegments >= 1
    ensures pps >= 1
    ensures targetCount < totalSegments ==> pps == 1
    ensures targetCount >= totalSegments ==>
      pps * totalSegments <= targetCount < (pps + 1) * totalSegments
  {
    // For a negative count Kotlin's truncating division and Dafny's Euclidean one
    // both give a quotient <= 0, which the maximum replaces by 1.
    Max(1, targetCount / totalSegments)
  }

  /** Moving from `a` a fraction of the way towards `b` and rounding stays between them. */
  lemma OffsetBetween(a: int, b: int, t: real)
    requires 0.0 <= t <= 1.0
    ensures Between(RoundToInt(a as real + t * (b - a) as real), a, b)
  {
    var v := a as real + t * (b - a) as real;
    var d := (b - a) as real;
    if a <= b {
      ProductNonNegative(t, d);
      ProductNonNegative(1.0 - t, d);
      assert d - t * d == (1.0 - t) * d;
      assert Min(a, b) == a && Max(a, b) == b;
    } else {
      ProductNonNegative(t, -d);
      ProductNonNegative(1.0 - t, -d);
      assert t * d - d == (1.0 - t) * -d;
      assert Min(a, b) == b && Max(a, b) == a;
    }
    RoundToIntBetween(v, Min(a, b), Max(a, b));
  }

  /** Point `j` of `pointsPerSegment` along the segment from `p1` to `p2`. */
  function SegmentPoint(p1: IntPoint, p2: IntPoint, j: int, pointsPerSegment: int): (p: IntPoint)
    requires 0 <= j <= pointsPerSegment && pointsPerSegment >= 1
    ensures Between(p.x, p1.x, p2.x) && Between(p.y, p1.y, p2.y)
  {
    var t := j as real / pointsPerSegment as real;
    var x := p1.x as real + t * (p2.x - p1.x) as real;
    var y := p1.y as real + t * (p2.y - p1.y) as real;
    OffsetBetween(p1.x, p2.x, t);
    OffsetBetween(p1.y, p2.y, t);
    IntPoint(RoundToInt(x), RoundToInt(y))
  }

  /** What one segment contributes: its start point, then the interior points. */
  function Subdivision(p1: IntPoint, p2: IntPoint, pointsPerSegment: int): (s: seq<IntPoint>)
    requires pointsPerSegment >= 1
    ensures |s| == pointsPerSegment && s[0] == p1
    ensures forall j :: 0 < j < pointsPerSegment ==> s[j] == SegmentPoint(p1, p2, j, pointsPerSegment)
  {
    [p1] + seq(pointsPerSegment - 1, k requires 0 <= k < pointsPerSegment - 1 =>
                 SegmentPoint(p1, p2, k + 1, pointsPerSegment))
  }

  /** The inner loop's step: one more point of the segment. */
  lemma SubdivisionPrefix(p1: IntPoint, p2: IntPoint, pointsPerSegment: int, j: int)
    requires 1 <= j < pointsPerSegment
    ensures Subdivision(p1, p2, pointsPerSegment)[..j + 1]
         == Subdivision(p1, p2, pointsPerSegment)[..j] + [SegmentPoint(p1, p2, j, pointsPerSegment)]
  {
  }

  /** The points produced by the nested loops over the segments of `points`. */
  function Subdivided(points: seq<IntPoint>, pointsPerSegment: int): (s: seq<IntPoint>)
    requires |points| >= 1 && pointsPerSegment >= 1
    ensures |s| == (|points| - 1) * pointsPerSegment
    ensures |points| >= 2 ==> s[0] == points[0]
    ensures pointsPerSegment == 1 ==> s == points[..|points| - 1]
  {
    if |points| == 1 then []
    else
      var front := points[..|points| - 1];
      Subdivided(front, pointsPerSegment)
        + Subdivision(points[|points| - 2], points[|points| - 1], pointsPerSegment)
  }

  /** Entry `j` of segment `i` sits at position `i * pointsPerSegment + j` of the
      loops' output: the segments follow each other in input order. */
  lemma {:induction false} SubdividedEntry(points: seq<IntPoint>, pointsPerSegment: int, i: int, j: int)
    requires |points| >= 2 && pointsPerSegment >= 1
    requires 0 <= i < |points| - 1 && 0 <= j < pointsPerSegment
    ensures i * pointsPerSegment + j < |Subdivided(points, pointsPerSegment)|
    ensures Subdivided(points, pointsPerSegment)[i * pointsPerSegment + j]
         == Subdivision(points[i], points[i + 1], pointsPerSegment)[j]
    decreases |points|
  {
    var n := |points|;
    var front := points[..n - 1];
    var head := Subdivided(front, pointsPerSegment);
    assert Subdivided(points, pointsPerSegment)
        == head + Subdivision(points[n - 2], points[n - 1], pointsPerSegment);
    if i < n - 2 {
      SubdividedEntry(front, pointsPerSegment, i, j);
      assert front[i] == points[i] && front[i + 1] == points[i + 1];
    } else {
      assert |head| == i * pointsPerSegment;
    }
  }

  /** The list `interpolatePointsToTargetCount` returns. */
  function Interpolation(points: seq<IntPoint>, targetCount: int): (r: seq<IntPoint>)
    requires targetCount >= 0
    ensures |points| < 2 ==> r == points
    ensures |points| >= 2 ==> |r| == targetCount
    ensures |points| >= 2 && targetCount >= 1 ==> r[0] == points[0]
  {
    if |points| < 2 then points
    else
      var pointsPerSegment := PointsPerSegment(targetCount, |points| - 1);
      var newPoints := Subdivided(points, pointsPerSegment) + [Last(points)];
      if |newPoints| > targetCount then newPoints[..targetCount]
      else newPoints + seq(targetCount - |newPoints|, _ => Last(newPoints))
  }

  /** The nested loops of `interpolatePointsToTargetCount`: for every segment, its
      start point followed by its interior points. */
  method SubdivideSegments(points: seq<IntPoint>, pointsPerSegment: int) returns (newPoints: seq<IntPoint>)
    requires |points| >= 1 && pointsPerSegment >= 1
    ensures newPoints == Subdivided(points, pointsPerSegment)
  {
    newPoints := [];
    var totalSegments := |points| - 1;
    for i := 0 to totalSegments
      invariant newPoints == Subdivided(points[..i + 1], pointsPerSegment)
    {
      var p1 := points[i];
      var p2 := points[i + 1];
      ghost var before := newPoints;
      ghost var segment := Subdivision(p1, p2, pointsPerSegment);
      newPoints := newPoints + [p1];
      for j := 1 to pointsPerSegment
        invariant newPoints == before + segment[..j]
      {
        SubdivisionPrefix(p1, p2, pointsPerSegment, j);
        newPoints := newPoints + [SegmentPoint(p1, p2, j, pointsPerSegment)];
      }
      assert segment[..pointsPerSegment] == segment;
      assert points[..i + 2][..i + 1] == points[..i + 1];
    }
    assert points[..totalSegments + 1] == points;
  }

  /** `interpolatePointsToTargetCount`. */
  method InterpolatePointsToTargetCount(points: seq<IntPoint>, targetCount: int)
    returns (result: seq<IntPoint>)
    requires targetCount >= 0
    ensures result == Interpolation(points, targetCount)
    ensures |points| < 2 ==> result == points
    ensures |points| >= 2 ==> |result| == targetCount
  {
    if |points| < 2 {
      return points;
    }
    var totalSegments := |points| - 1;
    var pointsPerSegment := PointsPerSegment(targetCount, totalSegments);
    var newPoints := SubdivideSegments(points, pointsPerSegment);
    newPoints := newPoints + [Last(points)];

    if |newPoints| > targetCount {
      return newPoints[..targetCount];
    }
    ghost var built := newPoints;
    while |newPoints| < targetCount
      invariant |built| <= |newPoints| <= targetCount
      invariant newPoints == built + seq(|newPoints| - |built|, _ => Last(built))
      decreases targetCount - |newPoints|
    {
      newPoints := newPoints + [Last(newPoints)];
    }
    result := newPoints;
  }

  /** When the input has at least as many segments as the target, the result is
      the first `targetCount` input points: nothing is interpolated. */
  lemma InterpolationTrims(points: seq<IntPoint>, targetCount: int)
    requires |points| >= 2 && 0 <= targetCount <= |points| - 1
    ensures Interpolation(points, targetCount) == points[..targetCount]
  {
    var pps := PointsPerSegment(targetCount, |points| - 1);
    assert pps == 1;
    assert Subdivided(points, pps) + [Last(points)] == points;
  }

  /** Padding repeats the last input point up to the target count. */
  lemma InterpolationPadsWithLast(points: seq<IntPoint>, targetCount: int, k: int)
    requires |points| >= 2 && targetCount >= 0
    requires (|points| - 1) * PointsPerSegment(targetCount, |points| - 1) <= k < targetCount
    ensures Interpolation(points, targetCount)[k] == Last(points)
  {
  }

  /** Before any padding, the entries of the result come segment by segment:
      entry `j` of segment `i` sits at `i * pps + j`, is the segment's start
      point when `j` is 0, and lies between the segment's two end points on
      each axis. */
  lemma InterpolationBetween(points: seq<IntPoint>, targetCount: int, i: int, j: int)
    requires |points| >= 2 && targetCount >= 0
    requires 0 <= i < |points| - 1 && 0 <= j < PointsPerSegment(targetCount, |points| - 1)
    requires i * PointsPerSegment(targetCount, |points| - 1) + j < targetCount
    ensures var r, k := Interpolation(points, targetCount), i * PointsPerSegment(targetCount, |points| - 1) + j;
      && (j == 0 ==> r[k] == points[i])
      && Between(r[k].x, points[i].x, points[i + 1].x)
      && Between(r[k].y, points[i].y, points[i + 1].y)
  {
    var pps := PointsPerSegment(targetCount, |points| - 1);
    InterpolationEntry(points, targetCount, i, j);
    SubdivisionBetween(points[i], points[i + 1], pps, j);
  }

  /** Entry `j` of segment `i` of the result, before any padding. */
  lemma InterpolationEntry(points: seq<IntPoint>, targetCount: int, i: int, j: int)
    requires |points| >= 2 && targetCount >= 0
    requires 0 <= i < |points| - 1 && 0 <= j < PointsPerSegment(targetCount, |points| - 1)
    requires i * PointsPerSegment(targetCount, |points| - 1) + j < targetCount
    ensures var pps := PointsPerSegment(targetCount, |points| - 1);
      Interpolation(points, targetCount)[i * pps + j] == Subdivision(points[i], points[i + 1], pps)[j]
  {
    var pps := PointsPerSegment(targetCount, |points| - 1);
    var k := i * pps + j;
    var subdivided := Subdivided(points, pps);
    SubdividedEntry(points, pps, i, j);
    assert k < |subdivided| && subdivided[k] == Subdivision(points[i], points[i + 1], pps)[j];
    InterpolationKeepsSegments(points, targetCount, k);
    assert Interpolation(points, targetCount)[k] == subdivided[k];
  }

  /** Every point a segment contributes lies between its two end points. */
  lemma SubdivisionBetween(p1: IntPoint, p2: IntPoint, pointsPerSegment: int, j: int)
    requires pointsPerSegment >= 1 && 0 <= j < pointsPerSegment
    ensures var entry := Subdivision(p1, p2, pointsPerSegment)[j];
      Between(entry.x, p1.x, p2.x) && Between(entry.y, p1.y, p2.y)
  {
    var entry := Subdivision(p1, p2, pointsPerSegment)[j];
    if j == 0 {
      assert entry == p1;
    } else {
      assert entry == SegmentPoint(p1, p2, j, pointsPerSegment);
    }
  }

  /** The entries of the result before the appended last point are the loops' output. */
  lemma InterpolationKeepsSegments(points: seq<IntPoint>, targetCount: int, k: int)
    requires |points| >= 2 && 0 <= k < targetCount
    requires k < |Subdivided(points, PointsPerSegment(targetCount, |points| - 1))|
    ensures Interpolation(points, targetCount)[k]
         == Subdivided(points, PointsPerSegment(targetCount, |points| - 1))[k]
  {
  }

  /** When the number of segments divides the target, the final input point is cut
      off again: the result is exactly what the segment loops produced. */
  lemma InterpolationDropsLast(points: seq<IntPoint>, targetCount: int)
    requires |points| >= 2 && targetCount >= 1
    requires targetCount % (|points| - 1) == 0
    ensures Interpolation(points, targetCount)
      == Subdivided(points, PointsPerSegment(targetCount, |points| - 1))
  {
    var s := |points| - 1;
    ExactQuotient(targetCount, s);
    var pps := PointsPerSegment(targetCount, s);
    assert pps == targetCount / s;
    var subdivided := Subdivided(points, pps);
    assert |subdivided| == targetCount;
    assert (subdivided + [Last(points)])[..targetCount] == subdivided;
  }

  /** A positive multiple `t` of `s` is at least `s`, and `s * (t / s)` is `t`. */
  lemma ExactQuotient(t: int, s: int)
    requires s >= 1 && t >= 1 && t % s == 0
    ensures t >= s && t / s >= 1 && s * (t / s) == t
  {
    var q := t / s;
    assert t == s * q;
  }

  /** A concrete case: a two-point stroke from (0,0) to (100,0) resampled to 100
      points ends at (99,0), not at its end point. */
  lemma InterpolationMissesEndpoint()
    ensures Interpolation([IntPoint(0, 0), IntPoint(100, 0)], 100)[99] == IntPoint(99, 0)
  {
    var points := [IntPoint(0, 0), IntPoint(100, 0)];
    InterpolationDropsLast(points, 100);
    assert PointsPerSegment(100, 1) == 100;
    assert points[..1] == [IntPoint(0, 0)];
    assert Subdivided(points, 100) == Subdivision(IntPoint(0, 0), IntPoint(100, 0), 100);
    var p := SegmentPoint(IntPoint(0, 0), IntPoint(100, 0), 99, 100);
    assert p == IntPoint(RoundToInt(99.0), RoundToInt(0.0));
    RoundToIntOfInt(99);
    RoundToIntOfInt(0);
  }

  /** The other outcome: a stroke from (0,0) to (1,0) resampled to 100 points
      also loses its appended end point, but the last interpolated point
      rounds onto it. */
  lemma InterpolationRoundsOntoEndpoint()
    ensures Interpolation([IntPoint(0, 0), IntPoint(1, 0)], 100)[99] == IntPoint(1, 0)
  {
    var points := [IntPoint(0, 0), IntPoint(1, 0)];
    InterpolationDropsLast(points, 100);
    assert PointsPerSegment(100, 1) == 100;
    assert points[..1] == [IntPoint(0, 0)];
    assert Subdivided(points, 100) == Subdivision(IntPoint(0, 0), IntPoint(1, 0), 100);
    var p := SegmentPoint(IntPoint(0, 0), IntPoint(1, 0), 99, 100);
    assert p == IntPoint(RoundToInt(0.99), RoundToInt(0.0));
    RoundToIntOfInt(0);
  }
}
