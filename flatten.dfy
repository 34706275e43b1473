/**
  Flattening: a drawing (a list of strokes of samples) becomes one list of
  points in recorded order, with the pen state dropped; and a list of
  normalised points becomes one list of alternating coordinates.
 */
module Flattening {
  import opened Points

  /** Number of samples over all strokes. */
  function TotalPoints(nestedList: seq<seq<Sample>>): nat
  {
    if nestedList == [] then 0 else |nestedList[0]| + TotalPoints(nestedList[1..])
  }

  /** `List<List<T>>.flatten()`: the strokes concatenated in recorded order. */
  function Flatten(nestedList: seq<seq<Sample>>): (flat: seq<Sample>)
    ensures |flat| == TotalPoints(nestedList)
    ensures nestedList != [] ==> flat[..|nestedList[0]|] == nestedList[0]
  {
    if nestedList == [] then [] else nestedList[0] + Flatten(nestedList[1..])
  }

  /** Appending a stroke to the drawing appends its samples to the flattened list. */
  lemma {:induction false} FlattenAppend(nestedList: seq<seq<Sample>>, stroke: seq<Sample>)
    ensures Flatten(nestedList + [stroke]) == Flatten(nestedList) + stroke
  {
    if nestedList == [] {
      assert [] + [stroke] == [stroke];
    } else {
      assert (nestedList + [stroke])[1..] == nestedList[1..] + [stroke];
      FlattenAppend(nestedList[1..], stroke);
    }
  }

  /** Flattening distributes over concatenation of drawings. */
  lemma {:induction false} FlattenConcat(a: seq<seq<Sample>>, b: seq<seq<Sample>>)
    ensures Flatten(a + b) == Flatten(a) + Flatten(b)
  {
    if a == [] {
      assert [] + b == b;
    } else {
      assert (a + b)[1..] == a[1..] + b;
      FlattenConcat(a[1..], b);
    }
  }

  /** `convertToPairList`: each sample's position, in order, pen state dropped. */
  function ConvertToPairList(tripleList: seq<Sample>): (pairs: seq<IntPoint>)
    ensures |pairs| == |tripleList|
    ensures forall i :: 0 <= i < |tripleList| ==>
      pairs[i].x == tripleList[i].x && pairs[i].y == tripleList[i].y
  {
    if tripleList == [] then []
    else [IntPoint(tripleList[0].x, tripleList[0].y)] + ConvertToPairList(tripleList[1..])
  }

  /** `flattenCoordinates`: `[x0, y0, x1, y1, ...]`. */
  function FlattenCoordinates(coordinates: seq<Point>): (flat: seq<real>)
    ensures |flat| == 2 * |coordinates|
    ensures forall i :: 0 <= i < |coordinates| ==>
      flat[2 * i] == coordinates[i].x && flat[2 * i + 1] == coordinates[i].y
  {
    if coordinates == [] then []
    else [coordinates[0].x, coordinates[0].y] + FlattenCoordinates(coordinates[1..])
  }

  /** The inverse of `FlattenCoordinates`: consecutive pairs become points. */
  function Unflatten(flat: seq<real>): (coordinates: seq<Point>)
    requires |flat| % 2 == 0
    ensures |coordinates| == |flat| / 2
  {
    if flat == [] then [] else [Point(flat[0], flat[1])] + Unflatten(flat[2..])
  }

  /** No coordinate is lost, duplicated or reordered by `flattenCoordinates`. */
  lemma {:induction false} UnflattenFlattenCoordinates(coordinates: seq<Point>)
    ensures Unflatten(FlattenCoordinates(coordinates)) == coordinates
  {
    if coordinates != [] {
      var flat := FlattenCoordinates(coordinates);
      assert flat[2..] == FlattenCoordinates(coordinates[1..]);
      UnflattenFlattenCoordinates(coordinates[1..]);
    }
  }
}
