/**
  The centroid/quadrant descriptor (`computeCG`, `calculateDistance`,
  `processSingleListDouble`).

  For N points the descriptor is, in this order: the centroid CG (2 values),
  the centroids of quadrants Q1..Q4 around CG (8 values), the four quadrant
  counts (4), the distances from CG to the four quadrant centroids (4), the
  distances from CG to every point (N) and the distances from the first point
  to every point (N): 18 + 2N values. An empty point list gives an empty list.
 */
module FeatureExtraction {
  import opened Numerics
  import opened Points
  import opened Flattening

  datatype Quadrant = Q1 | Q2 | Q3 | Q4

  /** `listOf("Q1", "Q2", "Q3", "Q4")`: the order quadrants are reported in. */
  const QuadrantOrder: seq<Quadrant> := [Q1, Q2, Q3, Q4]

  // ---------------------------------------------------------------------------
  // Centroid and distance

  /** `sumOf` over a list of doubles. */
  function Sum(vs: seq<real>): real
  {
    if vs == [] then 0.0 else vs[0] + Sum(vs[1..])
  }

  /** The sum of two lists joined is the sum of their sums. */
  lemma {:induction false} SumAppend(a: seq<real>, b: seq<real>)
    ensures Sum(a + b) == Sum(a) + Sum(b)
  {
    if a == [] {
      assert a + b == b;
    } else {
      assert (a + b)[1..] == a[1..] + b;
      SumAppend(a[1..], b);
    }
  }

  /** `points.map { it.first }`. */
  function XsOf(points: seq<Point>): (xs: seq<real>)
    ensures |xs| == |points| && forall i :: 0 <= i < |points| ==> xs[i] == points[i].x
  {
    if points == [] then [] else [points[0].x] + XsOf(points[1..])
  }

  /** `points.map { it.second }`. */
  function YsOf(points: seq<Point>): (ys: seq<real>)
    ensures |ys| == |points| && forall i :: 0 <= i < |points| ==> ys[i] == points[i].y
  {
    if points == [] then [] else [points[0].y] + YsOf(points[1..])
  }

  /** `computeCG`: the mean of the points, each coordinate kept to two decimals;
      `(0, 0)` for no points. */
  function ComputeCG(points: seq<Point>): (cg: Point)
    ensures points == [] ==> cg == Origin
    ensures points != [] ==>
      && -0.005 <= cg.x - Sum(XsOf(points)) / |points| as real <= 0.005
      && -0.005 <= cg.y - Sum(YsOf(points)) / |points| as real <= 0.005
  {
    if points == [] then Origin
    else
      var count := |points| as real;
      Point(Round2(Sum(XsOf(points)) / count), Round2(Sum(YsOf(points)) / count))
  }

  /** A sum of `n` values in `[lo, hi]` lies in `[n * lo, n * hi]`. */
  lemma {:induction false} SumBounds(vs: seq<real>, lo: real, hi: real)
    requires forall i :: 0 <= i < |vs| ==> lo <= vs[i] <= hi
    ensures |vs| as real * lo <= Sum(vs) <= |vs| as real * hi
  {
    if vs != [] {
      SumBounds(vs[1..], lo, hi);
      assert |vs| as real * lo == (|vs| - 1) as real * lo + lo;
      assert |vs| as real * hi == (|vs| - 1) as real * hi + hi;
    }
  }

  /** Dividing `[n * lo, n * hi]` by `n > 0` gives `[lo, hi]`. */
  lemma MeanBounds(total: real, n: real, lo: real, hi: real)
    requires n > 0.0 && n * lo <= total <= n * hi
    ensures lo <= total / n <= hi
  {
    assert total / n - lo == (total - n * lo) / n;
    assert hi - total / n == (n * hi - total) / n;
  }

  /** The mean of values in `[lo, hi]` lies in `[lo, hi]`. */
  lemma MeanInRange(vs: seq<real>, lo: real, hi: real)
    requires vs != [] && forall i :: 0 <= i < |vs| ==> lo <= vs[i] <= hi
    ensures lo <= Sum(vs) / |vs| as real <= hi
  {
    SumBounds(vs, lo, hi);
    MeanBounds(Sum(vs), |vs| as real, lo, hi);
  }

  /** The centroid lies in any box holding all the points, widened by the
      two-decimal rounding. */
  lemma CentroidInBox(points: seq<Point>, lo: Point, hi: Point)
    requires points != []
    requires forall i :: 0 <= i < |points| ==>
      lo.x <= points[i].x <= hi.x && lo.y <= points[i].y <= hi.y
    ensures lo.x - 0.005 <= ComputeCG(points).x <= hi.x + 0.005
    ensures lo.y - 0.005 <= ComputeCG(points).y <= hi.y + 0.005
  {
    MeanInRange(XsOf(points), lo.x, hi.x);
    MeanInRange(YsOf(points), lo.y, hi.y);
  }

  /** `calculateDistance`: the Euclidean distance kept to two decimals. */
  function CalculateDistance(p1: Point, p2: Point, sqrt: real -> real): (d: real)
    ensures SqrtLaws(sqrt) ==> d >= 0.0
    ensures SqrtLaws(sqrt) && p1 == p2 ==> d == 0.0
  {
    var dx := p2.x - p1.x;
    var dy := p2.y - p1.y;
    assert dx * dx >= 0.0 && dy * dy >= 0.0;
    Round2(sqrt(dx * dx + dy * dy))
  }

  /** The distance does not depend on the order of its arguments. */
  lemma DistanceSymmetric(p1: Point, p2: Point, sqrt: real -> real)
    ensures CalculateDistance(p1, p2, sqrt) == CalculateDistance(p2, p1, sqrt)
  {
    assert (p2.x - p1.x) * (p2.x - p1.x) == (p1.x - p2.x) * (p1.x - p2.x);
    assert (p2.y - p1.y) * (p2.y - p1.y) == (p1.y - p2.y) * (p1.y - p2.y);
  }

  /** `points.map { calculateDistance(from, it) }`. */
  function DistancesFrom(from: Point, points: seq<Point>, sqrt: real -> real): (ds: seq<real>)
    ensures |ds| == |points|
    ensures forall i {:trigger ds[i]} :: 0 <= i < |points| ==> ds[i] == CalculateDistance(from, points[i], sqrt)
  {
    if points == [] then []
    else [CalculateDistance(from, points[0], sqrt)] + DistancesFrom(from, points[1..], sqrt)
  }

  // ---------------------------------------------------------------------------
  // Quadrants

  /** The `when` of `processSingleListDouble`: a point is in the upper half (Q1, Q2)
      exactly when `y >= CGy`, and in the right half (Q1, Q4) exactly when `x >= CGx`. */
  function Classify(p: Point, cg: Point): (q: Quadrant)
    ensures (q == Q1 || q == Q2) <==> p.y >= cg.y
    ensures (q == Q1 || q == Q4) <==> p.x >= cg.x
  {
    if p.x >= cg.x && p.y >= cg.y then Q1
    else if p.x < cg.x && p.y >= cg.y then Q2
    else if p.x < cg.x && p.y < cg.y then Q3
    else Q4
  }

  /** The points of quadrant `q`, in their original order. */
  function Members(points: seq<Point>, cg: Point, q: Quadrant): (members: seq<Point>)
    ensures |members| <= |points|
    ensures forall k :: 0 <= k < |members| ==> Classify(members[k], cg) == q
  {
    if points == [] then []
    else
      var p, front := Last(points), Members(points[..|points| - 1], cg, q);
      if Classify(p, cg) == q then front + [p] else front
  }

  /** Every point falls into exactly one quadrant: together the four quadrants
      hold the input points, each as often as it occurs. */
  lemma {:induction false} QuadrantsPartition(points: seq<Point>, cg: Point)
    ensures multiset(Members(points, cg, Q1)) + multiset(Members(points, cg, Q2))
          + multiset(Members(points, cg, Q3)) + multiset(Members(points, cg, Q4))
         == multiset(points)
  {
    if points != [] {
      QuadrantsPartition(points[..|points| - 1], cg);
      MultisetOfSnoc(points);
    }
  }

  /** A non-empty list holds the elements of its front and its last element. */
  lemma MultisetOfSnoc<T>(s: seq<T>)
    requires s != []
    ensures multiset(s) == multiset(s[..|s| - 1]) + multiset{s[|s| - 1]}
  {
    assert s == s[..|s| - 1] + [s[|s| - 1]];
  }

  /** The four quadrant sizes add up to the number of points. */
  lemma {:induction false} QuadrantSizesSum(points: seq<Point>, cg: Point)
    ensures |Members(points, cg, Q1)| + |Members(points, cg, Q2)|
          + |Members(points, cg, Q3)| + |Members(points, cg, Q4)| == |points|
  {
    if points != [] {
      QuadrantSizesSum(points[..|points| - 1], cg);
    }
  }

  /** The quadrant centroid, or the global centroid for an empty quadrant. */
  function QuadrantCG(points: seq<Point>, cg: Point, q: Quadrant): (c: Point)
    ensures Members(points, cg, q) == [] ==> c == cg
    ensures Members(points, cg, q) != [] ==> c == ComputeCG(Members(points, cg, q))
  {
    var members := Members(points, cg, q);
    if |members| > 0 then ComputeCG(members) else cg
  }

  /** `quadrantCGs` listed in quadrant order. */
  function QuadrantCGs(points: seq<Point>, cg: Point): (cgs: seq<Point>)
    ensures |cgs| == 4
    ensures forall k :: 0 <= k < 4 ==> cgs[k] == QuadrantCG(points, cg, QuadrantOrder[k])
  {
    [QuadrantCG(points, cg, Q1), QuadrantCG(points, cg, Q2),
     QuadrantCG(points, cg, Q3), QuadrantCG(points, cg, Q4)]
  }

  /** `quadrantCounts` listed in quadrant order, as doubles. */
  function QuadrantCounts(points: seq<Point>, cg: Point): (counts: seq<real>)
    ensures |counts| == 4
    ensures forall k :: 0 <= k < 4 ==> counts[k] == |Members(points, cg, QuadrantOrder[k])| as real
  {
    [|Members(points, cg, Q1)| as real, |Members(points, cg, Q2)| as real,
     |Members(points, cg, Q3)| as real, |Members(points, cg, Q4)| as real]
  }

  // ---------------------------------------------------------------------------
  // The descriptor

  /** The first 18 entries: the centroid, the quadrant centroids, the quadrant
      counts and the distances from the centroid to the quadrant centroids. */
  function Summary(points: seq<Point>, cg: Point, sqrt: real -> real): (summary: seq<real>)
    ensures |summary| == 18
  {
    var cgs := QuadrantCGs(points, cg);
    [cg.x, cg.y] + FlattenCoordinates(cgs) + QuadrantCounts(points, cg) + DistancesFrom(cg, cgs, sqrt)
  }

  /** The list `processSingleListDouble` returns. */
  function Features(points: seq<Point>, sqrt: real -> real): (features: seq<real>)
    ensures |features| == if points == [] then 0 else 18 + 2 * |points|
  {
    if points == [] then []
    else
      var cg := ComputeCG(points);
      Summary(points, cg, sqrt)
      + DistancesFrom(cg, points, sqrt)
      // `points.firstOrNull() ?: Pair(0.0, 0.0)`: the list is not empty here,
      // so the fallback is never taken.
      + DistancesFrom(points[0], points, sqrt)
  }

  /** The entries of the summary for quadrant `QuadrantOrder[k]`. */
  lemma SummaryLayout(points: seq<Point>, cg: Point, sqrt: real -> real, k: int)
    requires 0 <= k < 4
    ensures var summary, c := Summary(points, cg, sqrt), QuadrantCG(points, cg, QuadrantOrder[k]);
      && summary[0] == cg.x && summary[1] == cg.y
      && summary[2 + 2 * k] == c.x && summary[3 + 2 * k] == c.y
      && summary[10 + k] == |Members(points, cg, QuadrantOrder[k])| as real
      && summary[14 + k] == CalculateDistance(cg, c, sqrt)
  {
    var cgs := QuadrantCGs(points, cg);
    var a, b, c, d := [cg.x, cg.y], FlattenCoordinates(cgs), QuadrantCounts(points, cg), DistancesFrom(cg, cgs, sqrt);
    assert Summary(points, cg, sqrt) == a + b + c + d;
    BlockEntries(a, b, c, d, k);
  }

  /** Where the entries of four blocks of sizes 2, 8, 4 and 4 land in their concatenation. */
  lemma BlockEntries(a: seq<real>, b: seq<real>, c: seq<real>, d: seq<real>, k: int)
    requires |a| == 2 && |b| == 8 && |c| == 4 && |d| == 4 && 0 <= k < 4
    ensures var s := a + b + c + d;
      && s[0] == a[0] && s[1] == a[1]
      && s[2 + 2 * k] == b[2 * k] && s[3 + 2 * k] == b[2 * k + 1]
      && s[10 + k] == c[k] && s[14 + k] == d[k]
  {
  }

  /** The quadrant entries of the descriptor, one quadrant at a time. */
  lemma FeatureQuadrantLayout(points: seq<Point>, sqrt: real -> real, k: int)
    requires points != [] && 0 <= k < 4
    ensures var features, cg := Features(points, sqrt), ComputeCG(points);
      && features[0] == cg.x && features[1] == cg.y
      && features[2 + 2 * k] == QuadrantCG(points, cg, QuadrantOrder[k]).x
      && features[3 + 2 * k] == QuadrantCG(points, cg, QuadrantOrder[k]).y
      && features[10 + k] == |Members(points, cg, QuadrantOrder[k])| as real
      && features[14 + k] == CalculateDistance(cg, QuadrantCG(points, cg, QuadrantOrder[k]), sqrt)
  {
    var cg := ComputeCG(points);
    var summary := Summary(points, cg, sqrt);
    var features := summary + DistancesFrom(cg, points, sqrt) + DistancesFrom(points[0], points, sqrt);
    assert Features(points, sqrt) == features;
    SummaryLayout(points, cg, sqrt, k);
    assert features[0] == summary[0] && features[1] == summary[1];
    assert features[2 + 2 * k] == summary[2 + 2 * k] && features[3 + 2 * k] == summary[3 + 2 * k];
    assert features[10 + k] == summary[10 + k] && features[14 + k] == summary[14 + k];
  }

  /** The per-point entries of the descriptor: the distance from the centroid to
      point `i`, then the distance from the first point to point `i`. */
  lemma FeaturePointLayout(points: seq<Point>, sqrt: real -> real, i: int)
    requires 0 <= i < |points|
    ensures var features, cg, n := Features(points, sqrt), ComputeCG(points), |points|;
      && features[18 + i] == CalculateDistance(cg, points[i], sqrt)
      && features[18 + n + i] == CalculateDistance(points[0], points[i], sqrt)
  {
    var cg := ComputeCG(points);
    var summary := Summary(points, cg, sqrt);
    var e, f := DistancesFrom(cg, points, sqrt), DistancesFrom(points[0], points, sqrt);
    assert Features(points, sqrt) == summary + e + f;
    TailEntries(summary, e, f, i);
  }

  /** Where the entries of the two equally long tails land after an 18-entry head. */
  lemma TailEntries(head: seq<real>, e: seq<real>, f: seq<real>, i: int)
    requires |head| == 18 && |e| == |f| && 0 <= i < |e|
    ensures (head + e + f)[18 + i] == e[i] && (head + e + f)[18 + |e| + i] == f[i]
  {
  }

  /** The four count entries of the descriptor. */
  lemma FeatureCounts(points: seq<Point>, sqrt: real -> real)
    requires points != []
    ensures var features, cg := Features(points, sqrt), ComputeCG(points);
      features[10..14] == QuadrantCounts(points, cg)
  {
    var cg := ComputeCG(points);
    var cgs := QuadrantCGs(points, cg);
    var a, b, c, d := [cg.x, cg.y], FlattenCoordinates(cgs), QuadrantCounts(points, cg), DistancesFrom(cg, cgs, sqrt);
    var features := a + b + c + d + DistancesFrom(cg, points, sqrt) + DistancesFrom(points[0], points, sqrt);
    assert Features(points, sqrt) == features;
    assert features[10..14] == c;
  }

  /** The four counts add up to the number of points. */
  lemma FeatureCountsSumToSize(points: seq<Point>, sqrt: real -> real)
    requires points != []
    ensures var features := Features(points, sqrt);
      features[10] + features[11] + features[12] + features[13] == |points| as real
  {
    QuadrantSizesSum(points, ComputeCG(points));
    FeatureCounts(points, sqrt);
    var features := Features(points, sqrt);
    assert features[10] == features[10..14][0] && features[11] == features[10..14][1];
    assert features[12] == features[10..14][2] && features[13] == features[10..14][3];
  }

  /** Every distance entry is non-negative, and the first distance from the first
      point (to itself) is 0. */
  lemma FeatureDistances(points: seq<Point>, sqrt: real -> real)
    requires points != [] && SqrtLaws(sqrt)
    ensures var features := Features(points, sqrt);
      && (forall i :: 14 <= i < |features| ==> features[i] >= 0.0)
      && features[18 + |points|] == 0.0
  {
    var features, n := Features(points, sqrt), |points|;
    FeaturePointLayout(points, sqrt, 0);
    forall i | 14 <= i < |features|
      ensures features[i] >= 0.0
    {
      if i < 18 {
        FeatureQuadrantLayout(points, sqrt, i - 14);
      } else if i < 18 + n {
        FeaturePointLayout(points, sqrt, i - 18);
      } else {
        FeaturePointLayout(points, sqrt, i - 18 - n);
      }
    }
  }

  /** An empty quadrant reports the global centroid as its centroid, a count of 0
      and a distance of 0. */
  lemma EmptyQuadrantFallback(points: seq<Point>, sqrt: real -> real, k: int)
    requires points != [] && SqrtLaws(sqrt) && 0 <= k < 4
    requires Members(points, ComputeCG(points), QuadrantOrder[k]) == []
    ensures var features := Features(points, sqrt);
      && features[2 + 2 * k] == features[0] && features[3 + 2 * k] == features[1]
      && features[10 + k] == 0.0
      && features[14 + k] == 0.0
  {
    FeatureQuadrantLayout(points, sqrt, k);
  }

  /** A point on the centroid is counted in Q1. */
  lemma CentroidPointInQ1(points: seq<Point>, i: int)
    requires 0 <= i < |points| && points[i] == ComputeCG(points)
    ensures Classify(points[i], ComputeCG(points)) == Q1
  {
  }

  /** The `for ((x, y) in points)` loop of `processSingleListDouble`: each point is
      appended to the list of its quadrant. */
  method SplitIntoQuadrants(points: seq<Point>, cg: Point) returns (quadrants: map<Quadrant, seq<Point>>)
    ensures forall q :: q in quadrants && quadrants[q] == Members(points, cg, q)
  {
    quadrants := map[Q1 := [], Q2 := [], Q3 := [], Q4 := []];
    assert forall q: Quadrant :: q in quadrants && quadrants[q] == [] by {
      forall q: Quadrant ensures q in quadrants && quadrants[q] == [] {
        match q
        case Q1 =>
        case Q2 =>
        case Q3 =>
        case Q4 =>
      }
    }
    assert points[..0] == [];

    for i := 0 to |points|
      invariant forall q :: q in quadrants && quadrants[q] == Members(points[..i], cg, q)
    {
      var p := points[i];
      var q := Classify(p, cg);
      quadrants := quadrants[q := quadrants[q] + [p]];
      assert points[..i + 1][..i] == points[..i];
    }
    assert points[..|points|] == points;
  }

  /** `processSingleListDouble`. */
  method ProcessSingleListDouble(points: seq<Point>, sqrt: real -> real) returns (features: seq<real>)
    ensures features == Features(points, sqrt)
    ensures |features| == if points == [] then 0 else 18 + 2 * |points|
  {
    if points == [] {
      return [];
    }
    var mainCG := ComputeCG(points);
    var quadrants := SplitIntoQuadrants(points, mainCG);

    var quadrantCGs := map q | q in quadrants ::
      if |quadrants[q]| > 0 then ComputeCG(quadrants[q]) else mainCG;
    var quadrantCounts := map q | q in quadrants :: |quadrants[q]|;

    var cgs := [quadrantCGs[Q1], quadrantCGs[Q2], quadrantCGs[Q3], quadrantCGs[Q4]];
    var counts := [quadrantCounts[Q1] as real, quadrantCounts[Q2] as real,
                   quadrantCounts[Q3] as real, quadrantCounts[Q4] as real];
    assert cgs == QuadrantCGs(points, mainCG) && counts == QuadrantCounts(points, mainCG) by {
      assert forall q :: q in quadrants ==>
        quadrantCGs[q] == QuadrantCG(points, mainCG, q) && quadrantCounts[q] == |Members(points, mainCG, q)|;
    }
    var distancesMainToQuadrants := DistancesFrom(mainCG, cgs, sqrt);
    var distancesMainToPoints := DistancesFrom(mainCG, points, sqrt);
    var firstPoint := points[0];
    var distancesFirstToAll := DistancesFrom(firstPoint, points, sqrt);

    var summary := [mainCG.x, mainCG.y] + FlattenCoordinates(cgs) + counts + distancesMainToQuadrants;
    assert summary == Summary(points, mainCG, sqrt);
    features := summary + distancesMainToPoints + distancesFirstToAll;
  }
}
