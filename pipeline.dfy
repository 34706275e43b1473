/**
  `processList` and the order in which the app chains the stages: the recorded
  strokes are flattened, reduced to positions, resampled to 100 points, placed
  in the 64 x 64 window and turned into the feature vector.
 */
module Pipeline {
  import opened Points
  import opened Flattening
  import opened Resampling
  import opened WindowFit
  import opened FeatureExtraction

  /** The default `targetCount` of `interpolatePointsToTargetCount`. */
  const DefaultTargetCount := 100

  /** What `processList` returns for a drawing: 100 points once there are two
      samples, otherwise the samples' positions as they are. */
  function CleanCoordinates(nestedList: seq<seq<Sample>>): (clean: seq<IntPoint>)
    ensures TotalPoints(nestedList) >= 2 ==> |clean| == DefaultTargetCount
    ensures TotalPoints(nestedList) < 2 ==> clean == ConvertToPairList(Flatten(nestedList))
  {
    Interpolation(ConvertToPairList(Flatten(nestedList)), DefaultTargetCount)
  }

  /** `processList`: flatten the strokes, drop the pen states, resample. */
  method ProcessList(nestedList: seq<seq<Sample>>) returns (cleanCoordinates: seq<IntPoint>)
    ensures cleanCoordinates == CleanCoordinates(nestedList)
    ensures TotalPoints(nestedList) >= 2 ==> |cleanCoordinates| == DefaultTargetCount
    ensures TotalPoints(nestedList) < 2 ==> cleanCoordinates == ConvertToPairList(Flatten(nestedList))
  {
    var flatList := Flatten(nestedList);
    var pairList := ConvertToPairList(flatList);
    cleanCoordinates := InterpolatePointsToTargetCount(pairList, DefaultTargetCount);
  }

  /** With at least two samples the resampled drawing starts at the first
      sample of the first stroke. */
  lemma CleanCoordinatesStartAtFirstSample(nestedList: seq<seq<Sample>>)
    requires TotalPoints(nestedList) >= 2 && nestedList != [] && nestedList[0] != []
    ensures CleanCoordinates(nestedList)[0] == IntPoint(nestedList[0][0].x, nestedList[0][0].y)
  {
    var flat := Flatten(nestedList);
    assert flat[0] == flat[..|nestedList[0]|][0] == nestedList[0][0];
  }

  /** The feature vector the app computes for a drawing: `processList`, then
      `normalizePointsToWindow` with its defaults, then `processSingleListDouble`.
      Its length is 0 for an empty drawing, 20 for a single sample and
      18 + 2 * 100 otherwise. */
  function DrawingFeatures(nestedList: seq<seq<Sample>>, sqrt: real -> real): (features: seq<real>)
    ensures |features| ==
      if TotalPoints(nestedList) == 0 then 0
      else if TotalPoints(nestedList) == 1 then 20
      else 218
  {
    Features(NormalizePointsToWindow(CleanCoordinates(nestedList), DefaultTargetSize, DefaultPadding), sqrt)
  }

  /** For a drawing of at least two samples whose bounding box is not flat,
      every window coordinate in the feature input lies in `[2, 62]`. */
  lemma DrawingWindowBounds(nestedList: seq<seq<Sample>>)
    requires !Degenerate(CleanCoordinates(nestedList))
    ensures forall p :: p in NormalizePointsToWindow(CleanCoordinates(nestedList), DefaultTargetSize, DefaultPadding) ==>
      2.0 <= p.x <= 62.0 && 2.0 <= p.y <= 62.0
  {
    WindowBounds(CleanCoordinates(nestedList), DefaultTargetSize, DefaultPadding);
  }
}
