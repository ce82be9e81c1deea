/** The smoothing helpers of the AI assistant: `_apply_smoothing`, which
    replaces the y values of the x-sorted points by a windowed average, a
    weighted average or an exponential average, and
    `_generate_smooth_operations`, which lists the points whose y changed. */
module Smoothing {
  import opened Support

  // ---------------------------------------------------------------------
  // The modification list

  /** Changes of y up to this size are floating-point noise, not edits. */
  const ChangeTolerance: real := 0.000001

  /** One entry of `modifications`; its "type" is a fixed label. */
  datatype Modification = Modification(index: nat, original: Point, modified: Point, yChange: real)

  datatype SmoothOperations = SmoothOperations(modifications: seq<Modification>, modifiedCount: nat,
                                               deletedCount: nat, addedCount: nat)

  predicate Changed(o: Point, s: Point)
  {
    AbsReal(s.y - o.y) > ChangeTolerance
  }

  function ModificationAt(os: seq<Point>, ss: seq<Point>, i: nat): Modification
    requires i < |os| && i < |ss|
  {
    Modification(i, os[i], ss[i], ss[i].y - os[i].y)
  }

  /** The changed pairs among the first `n` pairs of `os` and `ss`, in order. */
  function ModificationsBefore(os: seq<Point>, ss: seq<Point>, n: nat): seq<Modification>
    requires n <= |os| && n <= |ss|
  {
    if n == 0 then []
    else
      var rest := ModificationsBefore(os, ss, n - 1);
      if Changed(os[n - 1], ss[n - 1]) then rest + [ModificationAt(os, ss, n - 1)] else rest
  }

  /** Each modification is the changed pair at its position before `n`, and
      the positions increase. */
  lemma {:induction false} ModificationsSound(os: seq<Point>, ss: seq<Point>, n: nat)
    requires n <= |os| && n <= |ss|
    ensures forall k :: 0 <= k < |ModificationsBefore(os, ss, n)| ==>
      var e := ModificationsBefore(os, ss, n)[k];
      e.index < n && e == ModificationAt(os, ss, e.index) && Changed(os[e.index], ss[e.index])
    ensures forall k, l :: 0 <= k < l < |ModificationsBefore(os, ss, n)| ==>
      ModificationsBefore(os, ss, n)[k].index < ModificationsBefore(os, ss, n)[l].index
    decreases n
  {
    if n > 0 {
      ModificationsSound(os, ss, n - 1);
      var rest := ModificationsBefore(os, ss, n - 1);
      if Changed(os[n - 1], ss[n - 1]) {
        var d := rest + [ModificationAt(os, ss, n - 1)];
        assert d == ModificationsBefore(os, ss, n);
        assert forall k :: 0 <= k < |rest| ==> d[k] == rest[k] && rest[k].index < n - 1;
      } else {
        assert rest == ModificationsBefore(os, ss, n);
      }
    }
  }

  /** Every changed pair before `n` is listed. */
  lemma {:induction false} ModificationsComplete(os: seq<Point>, ss: seq<Point>, n: nat)
    requires n <= |os| && n <= |ss|
    ensures forall i :: 0 <= i < n && Changed(os[i], ss[i]) ==>
      ModificationAt(os, ss, i) in ModificationsBefore(os, ss, n)
    decreases n
  {
    if n > 0 {
      ModificationsComplete(os, ss, n - 1);
    }
  }

  /** `_generate_smooth_operations`: both lists are sorted by x and paired
      up to the shorter length; pair `i` is listed exactly when its y
      changed by more than the tolerance, and only modifications are
      counted. */
  method GenerateSmoothOperations(original: seq<Point>, smoothed: seq<Point>) returns (ops: SmoothOperations)
    ensures ops.modifications ==
      ModificationsBefore(SortBy(original, PointX), SortBy(smoothed, PointX), MinInt(|original|, |smoothed|))
    ensures forall i :: 0 <= i < |original| && i < |smoothed| ==>
      (Changed(SortBy(original, PointX)[i], SortBy(smoothed, PointX)[i]) <==>
       ModificationAt(SortBy(original, PointX), SortBy(smoothed, PointX), i) in ops.modifications)
    ensures forall k :: 0 <= k < |ops.modifications| ==>
      ops.modifications[k].index < |original| && ops.modifications[k].index < |smoothed|
    ensures forall k, l :: 0 <= k < l < |ops.modifications| ==>
      ops.modifications[k].index < ops.modifications[l].index
    ensures ops.modifiedCount == |ops.modifications| && ops.deletedCount == 0 && ops.addedCount == 0
  {
    var origSorted := SortBy(original, PointX);
    var smoothSorted := SortBy(smoothed, PointX);
    var n := MinInt(|origSorted|, |smoothSorted|);
    var modifications: seq<Modification> := [];
    var modifiedCount := 0;
    for i := 0 to n
      invariant modifications == ModificationsBefore(origSorted, smoothSorted, i)
      invariant modifiedCount == |modifications|
    {
      var orig, smooth := origSorted[i], smoothSorted[i];
      var yDiff := AbsReal(smooth.y - orig.y);
      if yDiff > ChangeTolerance {
        modifications := modifications + [Modification(i, orig, smooth, smooth.y - orig.y)];
        modifiedCount := modifiedCount + 1;
      }
    }
    ops := SmoothOperations(modifications, modifiedCount, 0, 0);
    ModificationsSound(origSorted, smoothSorted, n);
    ModificationsComplete(origSorted, smoothSorted, n);
  }

  // ---------------------------------------------------------------------
  // Smoothing

  /** The `smoothing_recommendation` of an analysis; absent entries are
      `None`. */
  datatype Recommendation = Recommendation(methodName: Option<string>, windowSize: Option<int>,
                                           smoothingFactor: Option<real>)

  const MovingAverageMethod: string := "moving_average"
  const SavitzkyGolayMethod: string := "savitzky_golay"
  const ExponentialMethod: string := "exponential"

  function MethodOf(r: Recommendation): string
  {
    if r.methodName.Some? then r.methodName.value else MovingAverageMethod
  }

  /** The requested window, capped at a third of the points, raised to
      `least`, and made odd by adding one. */
  function OddWindow(requested: int, n: nat, least: int): (w: int)
    ensures w >= least && w % 2 == 1
    ensures w <= MaxInt(least, MinInt(requested, n / 3)) + 1
    ensures least <= requested <= n / 3 && requested % 2 == 1 ==> w == requested
  {
    var w := MaxInt(least, MinInt(requested, n / 3));
    if w % 2 == 0 then w + 1 else w
  }

  /** The window around `i` reaches `half` positions to each side, clipped to
      the sequence. */
  function WindowStart(i: nat, half: nat): nat
  {
    if i >= half then i - half else 0
  }

  function WindowEnd(n: nat, i: nat, half: nat): nat
  {
    MinInt(n, i + half + 1)
  }

  function SumY(ps: seq<Point>): real
  {
    if ps == [] then 0.0 else SumY(ps[..|ps| - 1]) + ps[|ps| - 1].y
  }

  /** Point `i` with the mean y of its window. */
  function MeanAt(sp: seq<Point>, i: nat, half: nat): Point
    requires i < |sp|
  {
    var lo, hi := WindowStart(i, half), WindowEnd(|sp|, i, half);
    Point(sp[i].x, SumY(sp[lo..hi]) / (hi - lo) as real)
  }

  function MovingAverage(sp: seq<Point>, half: nat): (r: seq<Point>)
    ensures |r| == |sp| && forall i :: 0 <= i < |sp| ==> r[i] == MeanAt(sp, i, half)
  {
    seq(|sp|, i requires 0 <= i < |sp| => MeanAt(sp, i, half))
  }

  /** The centre-heavy weight of position `j` in the window around `i`. */
  function Weight(i: nat, j: nat): (w: real)
    ensures 0.0 < w <= 1.0 && (i == j ==> w == 1.0)
  {
    1.0 / (1.0 + AbsInt(j - i) as real)
  }

  /** The weights of positions `lo` to `hi - 1` around `i`. */
  function Weights(i: nat, lo: nat, hi: nat): (ws: seq<real>)
    requires lo <= hi
    ensures |ws| == hi - lo && forall k :: 0 <= k < |ws| ==> ws[k] == Weight(i, lo + k)
    ensures forall k :: 0 <= k < |ws| ==> 0.0 < ws[k] <= 1.0
  {
    seq(hi - lo, k requires 0 <= k < hi - lo => Weight(i, lo + k))
  }

  /** The sum of a list of weights; positive weights have a positive sum. */
  function SumOf(ws: seq<real>): (r: real)
    ensures (forall k :: 0 <= k < |ws| ==> ws[k] > 0.0) ==> r >= 0.0 && (ws != [] ==> r > 0.0)
  {
    if ws == [] then 0.0
    else
      var front := ws[..|ws| - 1];
      assert (forall k :: 0 <= k < |ws| ==> ws[k] > 0.0) ==> forall k :: 0 <= k < |front| ==> front[k] > 0.0;
      SumOf(front) + ws[|ws| - 1]
  }

  /** The y values of `ps` multiplied by the matching weights, added up. */
  function Dot(ps: seq<Point>, ws: seq<real>): real
    requires |ps| == |ws|
  {
    if ps == [] then 0.0 else Dot(ps[..|ps| - 1], ws[..|ws| - 1]) + ps[|ps| - 1].y * ws[|ws| - 1]
  }

  /** Point `i` with the weighted mean y of its window. */
  function WeightedAt(sp: seq<Point>, i: nat, half: nat): Point
    requires i < |sp|
  {
    var lo, hi := WindowStart(i, half), WindowEnd(|sp|, i, half);
    var ws := Weights(i, lo, hi);
    Point(sp[i].x, Dot(sp[lo..hi], ws) / SumOf(ws))
  }

  function WeightedAverage(sp: seq<Point>, half: nat): (r: seq<Point>)
    ensures |r| == |sp| && forall i :: 0 <= i < |sp| ==> r[i] == WeightedAt(sp, i, half)
  {
    seq(|sp|, i requires 0 <= i < |sp| => WeightedAt(sp, i, half))
  }

  /** The smoothing factor, clamped to [0.1, 0.9]. */
  function ClampAlpha(a: real): real
  {
    MaxReal(0.1, MinReal(0.9, a))
  }

  /** The new value weighted by `alpha`, the previous one by the rest. */
  function Mix(alpha: real, y: real, previous: real): real
  {
    alpha * y + (1.0 - alpha) * previous
  }

  /** The first `n` points of exponential smoothing: the first point as it
      is, then each y mixed with the previous smoothed y. */
  function Exponential(sp: seq<Point>, alpha: real, n: nat): (r: seq<Point>)
    requires 1 <= n <= |sp|
    ensures |r| == n
  {
    if n == 1 then [sp[0]]
    else
      var prev := Exponential(sp, alpha, n - 1);
      prev + [Point(sp[n - 1].x, Mix(alpha, sp[n - 1].y, prev[n - 2].y))]
  }

  const DefaultMovingWindow: int := 5
  const DefaultSavitzkyGolayWindow: int := 7
  const DefaultSmoothingFactor: real := 0.3
  /** The window of the fallback for an unknown method. */
  const FallbackWindow: nat := 5

  function IntOrDefault(r: Option<int>, default: int): int
  {
    if r.Some? then r.value else default
  }

  function RealOrDefault(r: Option<real>, default: real): real
  {
    if r.Some? then r.value else default
  }

  /** `_apply_smoothing`: fewer than three points come back as they are;
      otherwise the points are sorted by x and smoothed by the recommended
      method. */
  function Smoothed(points: seq<Point>, rec: Recommendation): seq<Point>
  {
    if |points| < 3 then points
    else
      var sp := SortBy(points, PointX);
      var m := MethodOf(rec);
      if m == MovingAverageMethod then
        MovingAverage(sp, OddWindow(IntOrDefault(rec.windowSize, DefaultMovingWindow), |sp|, 3) / 2)
      else if m == SavitzkyGolayMethod then
        WeightedAverage(sp, OddWindow(IntOrDefault(rec.windowSize, DefaultSavitzkyGolayWindow), |sp|, 5) / 2)
      else if m == ExponentialMethod then
        Exponential(sp, ClampAlpha(RealOrDefault(rec.smoothingFactor, DefaultSmoothingFactor)), |sp|)
      else
        MovingAverage(sp, FallbackWindow / 2)
  }

  // ---------------------------------------------------------------------
  // The loops

  method MovingAverageLoop(sp: seq<Point>, half: nat) returns (smoothed: seq<Point>)
    ensures smoothed == MovingAverage(sp, half)
  {
    smoothed := [];
    for i := 0 to |sp|
      invariant |smoothed| == i && forall j :: 0 <= j < i ==> smoothed[j] == MeanAt(sp, j, half)
    {
      var startIdx := if i >= half then i - half else 0;
      var endIdx := MinInt(|sp|, i + half + 1);
      var windowPoints := sp[startIdx..endIdx];
      var avgY := SumY(windowPoints) / (|windowPoints| as real);
      smoothed := smoothed + [Point(sp[i].x, avgY)];
    }
  }

  method WeightedAverageLoop(sp: seq<Point>, half: nat) returns (smoothed: seq<Point>)
    ensures smoothed == WeightedAverage(sp, half)
  {
    smoothed := [];
    for i := 0 to |sp|
      invariant |smoothed| == i && forall j :: 0 <= j < i ==> smoothed[j] == WeightedAt(sp, j, half)
    {
      var startIdx := if i >= half then i - half else 0;
      var endIdx := MinInt(|sp|, i + half + 1);
      var weights := Weights(i, startIdx, endIdx);
      var totalWeight := SumOf(weights);
      var weightedY := Dot(sp[startIdx..endIdx], weights) / totalWeight;
      smoothed := smoothed + [Point(sp[i].x, weightedY)];
    }
  }

  method ExponentialLoop(sp: seq<Point>, alpha: real) returns (smoothed: seq<Point>)
    requires |sp| >= 1
    ensures smoothed == Exponential(sp, alpha, |sp|)
  {
    smoothed := [sp[0]];
    for i := 1 to |sp|
      invariant smoothed == Exponential(sp, alpha, i)
    {
      var smoothedY := Mix(alpha, sp[i].y, smoothed[|smoothed| - 1].y);
      smoothed := smoothed + [Point(sp[i].x, smoothedY)];
    }
  }

  /** `_apply_smoothing`. */
  method ApplySmoothing(points: seq<Point>, rec: Recommendation) returns (smoothed: seq<Point>)
    ensures smoothed == Smoothed(points, rec)
  {
    if |points| < 3 {
      return points;
    }
    var sortedPoints := SortBy(points, PointX);
    var m := MethodOf(rec);
    if m == MovingAverageMethod {
      var windowSize := OddWindow(IntOrDefault(rec.windowSize, DefaultMovingWindow), |sortedPoints|, 3);
      smoothed := MovingAverageLoop(sortedPoints, windowSize / 2);
    } else if m == SavitzkyGolayMethod {
      var windowSize := OddWindow(IntOrDefault(rec.windowSize, DefaultSavitzkyGolayWindow), |sortedPoints|, 5);
      smoothed := WeightedAverageLoop(sortedPoints, windowSize / 2);
    } else if m == ExponentialMethod {
      var alpha := ClampAlpha(RealOrDefault(rec.smoothingFactor, DefaultSmoothingFactor));
      smoothed := ExponentialLoop(sortedPoints, alpha);
    } else {
      smoothed := MovingAverageLoop(sortedPoints, FallbackWindow / 2);
    }
  }
}
