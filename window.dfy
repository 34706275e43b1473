/**
  `normalizePointsToWindow`: the resampled points are scaled into a square
  window of side `targetSize` with `padding` on every side. One scale factor,
  fixed by the longer side of the bounding box, applies to both axes, and each
  axis is anchored at its minimum.
 */
module WindowFit {
  import opened Numerics
  import opened Points

  const DefaultTargetSize := 64
  const DefaultPadding := 2

  /** `xs.minOrNull()` on a non-empty list. */
  function Minimum(xs: seq<int>): (m: int)
    requires xs != []
    ensures forall k :: 0 <= k < |xs| ==> m <= xs[k]
  {
    if |xs| == 1 then xs[0]
    else
      assert xs == [xs[0]] + xs[1..];
      Min(xs[0], Minimum(xs[1..]))
  }

  /** `xs.maxOrNull()` on a non-empty list. */
  function Maximum(xs: seq<int>): (m: int)
    requires xs != []
    ensures forall k :: 0 <= k < |xs| ==> xs[k] <= m
  {
    if |xs| == 1 then xs[0]
    else
      assert xs == [xs[0]] + xs[1..];
      Max(xs[0], Maximum(xs[1..]))
  }

  /** The minimum and the maximum are values of the list. */
  lemma {:induction false} ExtremaAttained(xs: seq<int>)
    requires xs != []
    ensures exists k :: 0 <= k < |xs| && xs[k] == Minimum(xs)
    ensures exists k :: 0 <= k < |xs| && xs[k] == Maximum(xs)
  {
    if |xs| == 1 {
      assert xs[0] == Minimum(xs) && xs[0] == Maximum(xs);
    } else {
      ExtremaAttained(xs[1..]);
      var a :| 0 <= a < |xs| - 1 && xs[1..][a] == Minimum(xs[1..]);
      var b :| 0 <= b < |xs| - 1 && xs[1..][b] == Maximum(xs[1..]);
      if xs[0] <= Minimum(xs[1..]) {
        assert xs[0] == Minimum(xs);
      } else {
        assert xs[a + 1] == Minimum(xs);
      }
      if xs[0] >= Maximum(xs[1..]) {
        assert xs[0] == Maximum(xs);
      } else {
        assert xs[b + 1] == Maximum(xs);
      }
    }
  }

  function Xs(points: seq<IntPoint>): (xs: seq<int>)
    ensures |xs| == |points| && forall i :: 0 <= i < |points| ==> xs[i] == points[i].x
  {
    seq(|points|, i requires 0 <= i < |points| => points[i].x)
  }

  function Ys(points: seq<IntPoint>): (ys: seq<int>)
    ensures |ys| == |points| && forall i :: 0 <= i < |points| ==> ys[i] == points[i].y
  {
    seq(|points|, i requires 0 <= i < |points| => points[i].y)
  }

  /** `maxX - minX`: the width of the bounding box. */
  function Width(points: seq<IntPoint>): int
    requires points != []
  {
    Maximum(Xs(points)) - Minimum(Xs(points))
  }

  /** `maxY - minY`: the height of the bounding box. */
  function Height(points: seq<IntPoint>): int
    requires points != []
  {
    Maximum(Ys(points)) - Minimum(Ys(points))
  }

  /** The bounding box has zero width or zero height: the scale would divide by zero. */
  predicate Degenerate(points: seq<IntPoint>)
  {
    points == [] || Width(points) == 0 || Height(points) == 0
  }

  /** Every point lies within the width to the right of the minimum x, and the
      width is zero exactly when all points share one x. */
  lemma WidthSpansPoints(points: seq<IntPoint>)
    requires points != []
    ensures Width(points) >= 0
    ensures forall k :: 0 <= k < |points| ==> 0 <= points[k].x - Minimum(Xs(points)) <= Width(points)
    ensures Width(points) == 0 <==> forall k :: 0 <= k < |points| ==> points[k].x == points[0].x
  {
    ExtremaAttained(Xs(points));
  }

  /** The same for the height and the y coordinates. */
  lemma HeightSpansPoints(points: seq<IntPoint>)
    requires points != []
    ensures Height(points) >= 0
    ensures forall k :: 0 <= k < |points| ==> 0 <= points[k].y - Minimum(Ys(points)) <= Height(points)
    ensures Height(points) == 0 <==> forall k :: 0 <= k < |points| ==> points[k].y == points[0].y
  {
    ExtremaAttained(Ys(points));
  }

  /** The degenerate case is exactly: no points, or all of them on one vertical
      or one horizontal line. */
  lemma DegenerateMeansFlat(points: seq<IntPoint>)
    ensures Degenerate(points) <==>
      || points == []
      || (forall k :: 0 <= k < |points| ==> points[k].x == points[0].x)
      || (forall k :: 0 <= k < |points| ==> points[k].y == points[0].y)
  {
    if points != [] {
      WidthSpansPoints(points);
      HeightSpansPoints(points);
    }
  }

  /** `(targetSize - 2 * padding) / maxOf(width, height)`: the longer side of the
      bounding box, scaled, spans the window without its padding. */
  function Scale(points: seq<IntPoint>, targetSize: int, padding: int): (scale: real)
    requires !Degenerate(points)
    ensures scale * Max(Width(points), Height(points)) as real == (targetSize - 2 * padding) as real
    ensures 2 * padding < targetSize ==> scale > 0.0
  {
    (targetSize - 2 * padding) as real / Max(Width(points), Height(points)) as real
  }

  /** `(v - min) * scale + padding`: one coordinate placed in the window. */
  function Placed(offset: real, scale: real, padding: real): real
  {
    offset * scale + padding
  }

  /** `List(n) { p }`: `n` copies of `p`. */
  function Repeat(p: Point, n: nat): (r: seq<Point>)
    ensures |r| == n && forall i :: 0 <= i < n ==> r[i] == p
  {
    if n == 0 then [] else [p] + Repeat(p, n - 1)
  }

  /** `points.map { (x, y) -> Pair((x - minX) * scale + padding, (y - minY) * scale + padding) }`. */
  function PlaceAll(points: seq<IntPoint>, minX: int, minY: int, scale: real, padding: int): (r: seq<Point>)
    ensures |r| == |points|
    ensures forall i :: 0 <= i < |points| ==>
      r[i] == Point(Placed((points[i].x - minX) as real, scale, padding as real),
                    Placed((points[i].y - minY) as real, scale, padding as real))
  {
    if points == [] then []
    else
      [Point(Placed((points[0].x - minX) as real, scale, padding as real),
             Placed((points[0].y - minY) as real, scale, padding as real))]
      + PlaceAll(points[1..], minX, minY, scale, padding)
  }

  /** `normalizePointsToWindow`. */
  function NormalizePointsToWindow(points: seq<IntPoint>, targetSize: int, padding: int)
    : (normalized: seq<Point>)
    ensures |normalized| == |points|
    ensures Degenerate(points) ==>
      forall i :: 0 <= i < |points| ==> normalized[i] == Point(padding as real, padding as real)
  {
    if points == [] then Repeat(Point(padding as real, padding as real), |points|)
    else
      var minX := Minimum(Xs(points));
      var minY := Minimum(Ys(points));
      var width := Width(points);
      var height := Height(points);
      if width == 0 || height == 0 then Repeat(Point(padding as real, padding as real), |points|)
      else PlaceAll(points, minX, minY, Scale(points, targetSize, padding), padding)
  }

  /** Away from the degenerate case, both coordinates of every point are placed
      with one common scale factor, each from its own axis minimum. */
  lemma WindowUniformScale(points: seq<IntPoint>, targetSize: int, padding: int, i: int)
    requires !Degenerate(points) && 0 <= i < |points|
    ensures NormalizePointsToWindow(points, targetSize, padding)[i]
      == Point(Placed((points[i].x - Minimum(Xs(points))) as real, Scale(points, targetSize, padding), padding as real),
               Placed((points[i].y - Minimum(Ys(points))) as real, Scale(points, targetSize, padding), padding as real))
  {
    assert NormalizePointsToWindow(points, targetSize, padding)
        == PlaceAll(points, Minimum(Xs(points)), Minimum(Ys(points)), Scale(points, targetSize, padding), padding);
  }

  /** An offset within the longer extent is placed within `[padding, padding + span]`. */
  lemma PlacedBounds(offset: real, longest: real, span: real, padding: real)
    requires 0.0 <= offset <= longest && 0.0 < longest && 0.0 <= span
    ensures padding <= Placed(offset, span / longest, padding) <= padding + span
  {
    var s := span / longest;
    assert s * longest == span;
    assert 0.0 <= offset * s <= longest * s;
  }

  /** The extreme offsets: zero goes to the padding, the longer extent to `padding + span`. */
  lemma PlacedEnds(longest: real, span: real, padding: real)
    requires 0.0 < longest
    ensures Placed(0.0, span / longest, padding) == padding
    ensures Placed(longest, span / longest, padding) == padding + span
  {
    assert (span / longest) * longest == span;
  }

  /** Away from the degenerate case, with `padding <= targetSize - padding`,
      every coordinate lands in `[padding, targetSize - padding]`. */
  lemma WindowBounds(points: seq<IntPoint>, targetSize: int, padding: int)
    requires !Degenerate(points) && 2 * padding <= targetSize
    ensures forall p :: p in NormalizePointsToWindow(points, targetSize, padding) ==>
      && padding as real <= p.x <= (targetSize - padding) as real
      && padding as real <= p.y <= (targetSize - padding) as real
  {
    var normalized := NormalizePointsToWindow(points, targetSize, padding);
    var longest := Max(Width(points), Height(points)) as real;
    var span := (targetSize - 2 * padding) as real;
    forall i | 0 <= i < |points|
      ensures padding as real <= normalized[i].x <= (targetSize - padding) as real
      ensures padding as real <= normalized[i].y <= (targetSize - padding) as real
    {
      WindowUniformScale(points, targetSize, padding, i);
      assert Xs(points)[i] in Xs(points) && Ys(points)[i] in Ys(points);
      PlacedBounds((points[i].x - Minimum(Xs(points))) as real, longest, span, padding as real);
      PlacedBounds((points[i].y - Minimum(Ys(points))) as real, longest, span, padding as real);
    }
  }

  /** Away from the degenerate case, the leftmost and the lowest points sit on the padding. */
  lemma WindowMinimaOnPadding(points: seq<IntPoint>, targetSize: int, padding: int, i: int)
    requires !Degenerate(points) && 0 <= i < |points|
    ensures points[i].x == Minimum(Xs(points)) ==>
      NormalizePointsToWindow(points, targetSize, padding)[i].x == padding as real
    ensures points[i].y == Minimum(Ys(points)) ==>
      NormalizePointsToWindow(points, targetSize, padding)[i].y == padding as real
  {
    WindowUniformScale(points, targetSize, padding, i);
    PlacedEnds(Max(Width(points), Height(points)) as real, (targetSize - 2 * padding) as real, padding as real);
  }

  /** Away from the degenerate case, the far end of the longer side of the
      bounding box sits on `targetSize - padding`. */
  lemma WindowLongerSideFills(points: seq<IntPoint>, targetSize: int, padding: int, i: int)
    requires !Degenerate(points) && 0 <= i < |points|
    ensures points[i].x == Maximum(Xs(points)) && Width(points) >= Height(points) ==>
      NormalizePointsToWindow(points, targetSize, padding)[i].x == (targetSize - padding) as real
    ensures points[i].y == Maximum(Ys(points)) && Height(points) >= Width(points) ==>
      NormalizePointsToWindow(points, targetSize, padding)[i].y == (targetSize - padding) as real
  {
    WindowUniformScale(points, targetSize, padding, i);
    PlacedEnds(Max(Width(points), Height(points)) as real, (targetSize - 2 * padding) as real, padding as real);
  }

  /** Away from the degenerate case, the picture touches the padding on both axes. */
  lemma WindowTouchesPadding(points: seq<IntPoint>, targetSize: int, padding: int)
    requires !Degenerate(points)
    ensures exists i :: 0 <= i < |points| && NormalizePointsToWindow(points, targetSize, padding)[i].x == padding as real
    ensures exists i :: 0 <= i < |points| && NormalizePointsToWindow(points, targetSize, padding)[i].y == padding as real
  {
    ExtremaAttained(Xs(points));
    ExtremaAttained(Ys(points));
    var a :| 0 <= a < |points| && Xs(points)[a] == Minimum(Xs(points));
    var b :| 0 <= b < |points| && Ys(points)[b] == Minimum(Ys(points));
    WindowMinimaOnPadding(points, targetSize, padding, a);
    WindowMinimaOnPadding(points, targetSize, padding, b);
  }
}
