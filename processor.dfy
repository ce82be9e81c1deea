/** The image processor's calibration state and the two curve extractions
    built on it.

    `set_calibration` fixes, per axis, the line through two calibration
    pixels and their values, and a plot region: the bounding box of the four
    calibration pixels widened by 10.  `pixel_to_physical` applies the two
    lines; `is_in_plot_region` tests the region with inclusive bounds.

    `extract_curve_from_mask` traces the skeleton with the momentum tracer,
    keeps the traced pixels inside the plot region, converts them, sorts them
    by x and removes outliers.  `extract_curve` (from its skeleton on) keeps the
    skeleton pixels inside the region, reduces each column to its median row,
    down-samples, converts, sorts, removes outliers and optionally smooths.

    Skeletonisation, colour masks and the Savitzky-Golay smoother are outside
    the model: the skeleton is an input grid, the smoother a parameter. */
module Processor {
  import opened Support
  import opened Tracer
  import opened Curve

  /** The margin around the calibration pixels. */
  const Margin: real := 10.0

  datatype Region = Region(xMin: real, xMax: real, yMin: real, yMax: real)

  /** The six numbers `set_calibration` stores. */
  datatype Calibration = Calibration(xScale: real, xOffset: real, xPixelStart: real,
                                     yScale: real, yOffset: real, yPixelStart: real)

  datatype ProcessorError = XAxisTooClose | YAxisTooClose | NotCalibrated

  /** `is_in_plot_region`: no region admits everything; otherwise the bounds
      are inclusive. */
  predicate InRegion(region: Option<Region>, x: real, y: real)
  {
    region.None? || (region.value.xMin <= x <= region.value.xMax && region.value.yMin <= y <= region.value.yMax)
  }

  /** Two calibration points further apart than one pixel. */
  predicate FarEnough(p1: real, p2: real)
  {
    AbsReal(p2 - p1) >= 1.0
  }

  /** Value per pixel along one axis. */
  function AxisScale(p1: real, p2: real, v1: real, v2: real): real
    requires FarEnough(p1, p2)
  {
    (v2 - v1) / (p2 - p1)
  }

  /** The affine map of one axis. */
  function AxisValue(start: real, scale: real, offset: real, p: real): real
  {
    (p - start) * scale + offset
  }

  /** Each axis map is the line through its two calibration points: it sends
      the first pixel to the first value, the second to the second, and the
      point a fraction `t` of the way between them to the value the same
      fraction of the way between the values. */
  lemma AxisMapInterpolates(p1: real, p2: real, v1: real, v2: real, t: real)
    requires FarEnough(p1, p2)
    ensures AxisValue(p1, AxisScale(p1, p2, v1, v2), v1, p1) == v1
    ensures AxisValue(p1, AxisScale(p1, p2, v1, v2), v1, p2) == v2
    ensures AxisValue(p1, AxisScale(p1, p2, v1, v2), v1, p1 + t * (p2 - p1)) == v1 + t * (v2 - v1)
  {
    var d := p2 - p1;
    var k := AxisScale(p1, p2, v1, v2);
    assert d * k == v2 - v1;
    assert (p1 + t * d - p1) * k == t * (d * k);
  }

  function ToPhysical(c: Calibration, px: real, py: real): Point
  {
    Point(AxisValue(c.xPixelStart, c.xScale, c.xOffset, px), AxisValue(c.yPixelStart, c.yScale, c.yOffset, py))
  }

  /** The bounding box of four pixels widened by the margin. */
  function CalibrationRegion(a: Point, b: Point, c: Point, d: Point): (r: Region)
    ensures forall p :: p in [a, b, c, d] ==>
      r.xMin + Margin <= p.x <= r.xMax - Margin && r.yMin + Margin <= p.y <= r.yMax - Margin
    ensures exists p :: p in [a, b, c, d] && p.x == r.xMin + Margin
    ensures exists p :: p in [a, b, c, d] && p.x == r.xMax - Margin
    ensures exists p :: p in [a, b, c, d] && p.y == r.yMin + Margin
    ensures exists p :: p in [a, b, c, d] && p.y == r.yMax - Margin
  {
    Region(MinReal(MinReal(a.x, b.x), MinReal(c.x, d.x)) - Margin,
           MaxReal(MaxReal(a.x, b.x), MaxReal(c.x, d.x)) + Margin,
           MinReal(MinReal(a.y, b.y), MinReal(c.y, d.y)) - Margin,
           MaxReal(MaxReal(a.y, b.y), MaxReal(c.y, d.y)) + Margin)
  }

  // ---------------------------------------------------------------------
  // The extraction pipelines as functions

  /** The loop of `extract_curve_from_mask` over the traced pixels: those in
      the region, converted. */
  function TracePoints(tr: seq<Pixel>, c: Calibration, region: Option<Region>): seq<Point>
  {
    if tr == [] then []
    else
      var rest := TracePoints(tr[..|tr| - 1], c, region);
      var p := tr[|tr| - 1];
      if InRegion(region, p.x as real, p.y as real) then rest + [ToPhysical(c, p.x as real, p.y as real)] else rest
  }

  /** The sort by x and the outlier removal that end both extractions;
      `verdicts` gives, for the sorted points, the verdict of the slope-change
      test. */
  function CleanCurve(points: seq<Point>, verdicts: seq<Point> -> Option<nat -> bool>): seq<Point>
  {
    var sorted := SortBy(points, PointX);
    if |sorted| > 5 then RemoveOutliers(sorted, verdicts(sorted)) else sorted
  }

  /** The start pixel: the caller's, or the extreme skeleton pixel. */
  function StartPixel(pixels: seq<Pixel>, startPoint: Option<Pixel>, direction: string): Pixel
    requires pixels != []
  {
    if startPoint.Some? then startPoint.value else FindStartPoint(pixels, direction)
  }

  /** `extract_curve_from_mask` for a calibrated processor. */
  function MaskCurve(skeleton: Grid, startPoint: Option<Pixel>, direction: string, c: Calibration,
                     region: Option<Region>, norm: NormFn, verdicts: seq<Point> -> Option<nat -> bool>): seq<Point>
  {
    var pixels := SkeletonPixels(skeleton);
    if pixels == [] then []
    else
      var tr := Trace(skeleton, StartPixel(pixels, startPoint, direction), |pixels|, norm);
      CleanCurve(TracePoints(tr, c, region), verdicts)
  }

  /** The loop of `extract_curve` that keeps the skeleton pixels in the region. */
  function RegionPixels(ps: seq<Pixel>, region: Option<Region>): seq<Pixel>
  {
    if ps == [] then []
    else
      var rest := RegionPixels(ps[..|ps| - 1], region);
      var p := ps[|ps| - 1];
      if InRegion(region, p.x as real, p.y as real) then rest + [p] else rest
  }

  /** The loop of `extract_curve` that converts the sampled column points. */
  function PhysicalPoints(ps: seq<Point>, c: Calibration): seq<Point>
  {
    if ps == [] then []
    else PhysicalPoints(ps[..|ps| - 1], c) + [ToPhysical(c, ps[|ps| - 1].x, ps[|ps| - 1].y)]
  }

  /** One point per kept column of the pixels, in increasing x. */
  function ColumnMedians(inside: seq<Pixel>, downsample: int): seq<Point>
  {
    var columns := ColumnsOf(inside);
    var xs := SortBy(KeyOrder(inside), IntKey);
    ColumnKeys(inside);
    SortByMembers(KeyOrder(inside), IntKey);
    SampledBefore(xs, columns, StepOf(downsample), |xs|)
  }

  /** `extract_curve` from its skeleton on, for a calibrated processor. */
  function SkeletonCurve(skeleton: Grid, c: Calibration, region: Option<Region>, downsample: int,
                         smooth: bool, smoother: seq<Point> -> seq<Point>,
                         verdicts: seq<Point> -> Option<nat -> bool>): seq<Point>
  {
    var inside := RegionPixels(SkeletonPixels(skeleton), region);
    if inside == [] then []
    else
      var cleaned := CleanCurve(PhysicalPoints(ColumnMedians(inside, downsample), c), verdicts);
      if smooth && |cleaned| > 10 then smoother(cleaned) else cleaned
  }

  // ---------------------------------------------------------------------
  // The processor object

  class ImageProcessor {
    var calibrationSet: bool
    var xScale: Option<real>
    var xOffset: Option<real>
    var xPixelStart: Option<real>
    var yScale: Option<real>
    var yOffset: Option<real>
    var yPixelStart: Option<real>
    var plotRegion: Option<Region>

    /** Once calibrated, all six numbers are present. */
    ghost predicate Valid()
      reads this
    {
      calibrationSet ==>
        xScale.Some? && xOffset.Some? && xPixelStart.Some? && yScale.Some? && yOffset.Some? && yPixelStart.Some?
    }

    constructor()
      ensures Valid() && !calibrationSet && plotRegion.None?
      ensures xScale.None? && xOffset.None? && xPixelStart.None?
      ensures yScale.None? && yOffset.None? && yPixelStart.None?
    {
      calibrationSet := false;
      xScale, yScale, xOffset, yOffset, xPixelStart, yPixelStart := None, None, None, None, None, None;
      plotRegion := None;
    }

    function CurrentCalibration(): Calibration
      reads this
      requires Valid() && calibrationSet
    {
      Calibration(xScale.value, xOffset.value, xPixelStart.value, yScale.value, yOffset.value, yPixelStart.value)
    }

    /** `pixel_to_physical`. */
    function PixelToPhysical(px: real, py: real): (r: Result<Point, ProcessorError>)
      reads this
      requires Valid()
      ensures !calibrationSet <==> r == Err(NotCalibrated)
      ensures calibrationSet ==> r == Ok(ToPhysical(CurrentCalibration(), px, py))
    {
      if !calibrationSet then Err(NotCalibrated) else Ok(ToPhysical(CurrentCalibration(), px, py))
    }

    /** `set_calibration` with the x-axis pixels `x1`, `x2` and their values
        `xv1`, `xv2`, and the y-axis pixels `y3`, `y4` and their values `yv1`,
        `yv2`.  The x check fails before anything is written; the y check fails
        after the x numbers are written, leaving the rest as it was. */
    method SetCalibration(x1: Point, x2: Point, xv1: real, xv2: real,
                          y3: Point, y4: Point, yv1: real, yv2: real)
      returns (r: Result<(), ProcessorError>)
      requires Valid()
      modifies this
      ensures Valid()
      ensures !FarEnough(x1.x, x2.x) ==> r == Err(XAxisTooClose) && unchanged(this)
      ensures FarEnough(x1.x, x2.x) ==>
        xScale == Some(AxisScale(x1.x, x2.x, xv1, xv2)) && xOffset == Some(xv1) && xPixelStart == Some(x1.x)
      ensures FarEnough(x1.x, x2.x) && !FarEnough(y3.y, y4.y) ==>
        r == Err(YAxisTooClose) && calibrationSet == old(calibrationSet) && plotRegion == old(plotRegion)
        && yScale == old(yScale) && yOffset == old(yOffset) && yPixelStart == old(yPixelStart)
      ensures FarEnough(x1.x, x2.x) && FarEnough(y3.y, y4.y) ==>
        r == Ok(()) && calibrationSet
        && yScale == Some(AxisScale(y3.y, y4.y, yv1, yv2)) && yOffset == Some(yv1) && yPixelStart == Some(y3.y)
        && plotRegion == Some(CalibrationRegion(x1, x2, y3, y4))
        && PixelToPhysical(x1.x, y3.y) == Ok(Point(xv1, yv1))
        && PixelToPhysical(x2.x, y4.y) == Ok(Point(xv2, yv2))
    {
      if !FarEnough(x1.x, x2.x) {
        return Err(XAxisTooClose);
      }
      xScale := Some(AxisScale(x1.x, x2.x, xv1, xv2));
      xOffset := Some(xv1);
      xPixelStart := Some(x1.x);
      if !FarEnough(y3.y, y4.y) {
        return Err(YAxisTooClose);
      }
      yScale := Some(AxisScale(y3.y, y4.y, yv1, yv2));
      yOffset := Some(yv1);
      yPixelStart := Some(y3.y);
      plotRegion := Some(CalibrationRegion(x1, x2, y3, y4));
      calibrationSet := true;
      AxisMapInterpolates(x1.x, x2.x, xv1, xv2, 0.0);
      AxisMapInterpolates(y3.y, y4.y, yv1, yv2, 0.0);
      r := Ok(());
    }

    /** `extract_curve_from_mask` on a given skeleton.  `verdicts` stands for
        the floating-point slope test of `remove_outliers`. */
    method ExtractCurveFromMask(skeleton: Grid, startPoint: Option<Pixel>, direction: string, norm: NormFn,
                                verdicts: seq<Point> -> Option<nat -> bool>)
      returns (r: Result<seq<Point>, ProcessorError>)
      requires Valid() && IsGrid(skeleton)
      ensures !calibrationSet ==> r == Err(NotCalibrated)
      ensures calibrationSet ==>
        r == Ok(MaskCurve(skeleton, startPoint, direction, CurrentCalibration(), plotRegion, norm, verdicts))
    {
      if !calibrationSet {
        return Err(NotCalibrated);
      }
      var pixels := SkeletonPixels(skeleton);
      if pixels == [] {
        return Ok([]);
      }
      var start := StartPixel(pixels, startPoint, direction);
      var traced := MomentumTrace(skeleton, start, |pixels|, norm);
      var c := CurrentCalibration();
      var physical: seq<Point> := [];
      for i := 0 to |traced|
        invariant physical == TracePoints(traced[..i], c, plotRegion)
      {
        assert traced[..i + 1][..i] == traced[..i];
        var p := traced[i];
        if InRegion(plotRegion, p.x as real, p.y as real) {
          var q := PixelToPhysical(p.x as real, p.y as real);
          physical := physical + [q.value];
        }
      }
      assert traced[..|traced|] == traced;
      r := Ok(CleanCurve(physical, verdicts));
    }

    /** `extract_curve` from its skeleton on.  `smoother` stands for the
        Savitzky-Golay filter of `smooth_curve`. */
    method ExtractCurve(skeleton: Grid, downsample: int, smooth: bool, smoother: seq<Point> -> seq<Point>,
                        verdicts: seq<Point> -> Option<nat -> bool>)
      returns (r: Result<seq<Point>, ProcessorError>)
      requires Valid()
      ensures !calibrationSet ==> r == Err(NotCalibrated)
      ensures calibrationSet ==>
        r == Ok(SkeletonCurve(skeleton, CurrentCalibration(), plotRegion, downsample, smooth, smoother, verdicts))
    {
      if !calibrationSet {
        return Err(NotCalibrated);
      }
      var inside := KeepInRegion(SkeletonPixels(skeleton), plotRegion);
      if inside == [] {
        return Ok([]);
      }
      var order, columns := GroupColumns(inside);
      var xs := SortBy(order, IntKey);
      ColumnKeys(inside);
      SortByMembers(order, IntKey);
      var pixelPoints := SampleColumns(xs, columns, downsample);
      var physical := ConvertPoints(pixelPoints, CurrentCalibration());
      var cleaned := CleanCurve(physical, verdicts);
      if smooth && |cleaned| > 10 {
        cleaned := smoother(cleaned);
      }
      r := Ok(cleaned);
    }
  }

  /** The pixel filter loop of `extract_curve`. */
  method KeepInRegion(pixels: seq<Pixel>, region: Option<Region>) returns (inside: seq<Pixel>)
    ensures inside == RegionPixels(pixels, region)
  {
    inside := [];
    for i := 0 to |pixels|
      invariant inside == RegionPixels(pixels[..i], region)
    {
      assert pixels[..i + 1][..i] == pixels[..i];
      if InRegion(region, pixels[i].x as real, pixels[i].y as real) {
        inside := inside + [pixels[i]];
      }
    }
    assert pixels[..|pixels|] == pixels;
  }

  /** The conversion loop of `extract_curve`. */
  method ConvertPoints(ps: seq<Point>, c: Calibration) returns (physical: seq<Point>)
    ensures physical == PhysicalPoints(ps, c)
  {
    physical := [];
    for i := 0 to |ps|
      invariant physical == PhysicalPoints(ps[..i], c)
    {
      assert ps[..i + 1][..i] == ps[..i];
      physical := physical + [ToPhysical(c, ps[i].x, ps[i].y)];
    }
    assert ps[..|ps|] == ps;
  }
}
