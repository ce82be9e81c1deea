/** What the two curve extractions deliver: points sorted by x, each the
    physical image of a pixel the extraction looked at, never more of them
    than there were candidates. */
module ProcessorProperties {
  import opened Support
  import opened Tracer
  import opened TraceTheorems
  import opened Curve
  import opened Processor

  /** Sorting and outlier removal give points sorted by x, drawn from the
      input without repetition beyond the input's own; at most five points are
      only reordered. */
  lemma CleanCurveShape(points: seq<Point>, verdicts: seq<Point> -> Option<nat -> bool>)
    ensures SortedBy(CleanCurve(points, verdicts), PointX)
    ensures multiset(CleanCurve(points, verdicts)) <= multiset(points)
    ensures |CleanCurve(points, verdicts)| <= |points|
    ensures |points| <= 5 ==> multiset(CleanCurve(points, verdicts)) == multiset(points)
  {
    var sorted := SortBy(points, PointX);
    var r := CleanCurve(points, verdicts);
    SortBySorted(points, PointX);
    if |sorted| > 5 {
      RemoveOutliersShape(sorted, verdicts(sorted));
      SubsequenceKeepsSorted(r, sorted, PointX);
    }
    assert |multiset(r)| <= |multiset(points)|;
  }

  /** Every converted point comes from a traced pixel inside the region. */
  lemma {:induction false} TracePointsFrom(tr: seq<Pixel>, c: Calibration, region: Option<Region>)
    ensures |TracePoints(tr, c, region)| <= |tr|
    ensures forall q :: q in TracePoints(tr, c, region) ==>
      exists p :: p in tr && InRegion(region, p.x as real, p.y as real) && q == ToPhysical(c, p.x as real, p.y as real)
    decreases |tr|
  {
    if tr != [] {
      var front := tr[..|tr| - 1];
      TracePointsFrom(front, c, region);
      forall q | q in TracePoints(front, c, region)
        ensures exists p :: p in tr && InRegion(region, p.x as real, p.y as real) && q == ToPhysical(c, p.x as real, p.y as real)
      {
        var p :| p in front && InRegion(region, p.x as real, p.y as real) && q == ToPhysical(c, p.x as real, p.y as real);
        assert p in tr;
      }
      assert tr[|tr| - 1] in tr;
    }
  }

  /** `extract_curve_from_mask` returns points sorted by x, each the physical
      image of a traced pixel inside the plot region, at most one per skeleton
      pixel plus one for the start. */
  lemma MaskCurveShape(skeleton: Grid, startPoint: Option<Pixel>, direction: string, c: Calibration,
                       region: Option<Region>, norm: NormFn, verdicts: seq<Point> -> Option<nat -> bool>)
    ensures var r := MaskCurve(skeleton, startPoint, direction, c, region, norm, verdicts);
      SortedBy(r, PointX) && |r| <= |SkeletonSet(skeleton)| + 1
    ensures var r := MaskCurve(skeleton, startPoint, direction, c, region, norm, verdicts);
      SkeletonPixels(skeleton) != [] ==>
        var tr := Trace(skeleton, StartPixel(SkeletonPixels(skeleton), startPoint, direction), |SkeletonPixels(skeleton)|, norm);
        forall q :: q in r ==>
          exists p :: p in tr && InRegion(region, p.x as real, p.y as real) && q == ToPhysical(c, p.x as real, p.y as real)
  {
    var pixels := SkeletonPixels(skeleton);
    if pixels != [] {
      var start := StartPixel(pixels, startPoint, direction);
      var tr := Trace(skeleton, start, |pixels|, norm);
      var points := TracePoints(tr, c, region);
      CleanCurveShape(points, verdicts);
      TracePointsFrom(tr, c, region);
      TraceLength(skeleton, start, |pixels|, norm);
      var r := MaskCurve(skeleton, startPoint, direction, c, region, norm, verdicts);
      forall q | q in r ensures q in points {
        assert q in multiset(r);
      }
    }
  }

  /** A caller's start pixel outside the image gives no points: the start is
      only bounds-checked by the tracer. */
  lemma MaskCurveOutsideStart(skeleton: Grid, start: Pixel, direction: string, c: Calibration,
                              region: Option<Region>, norm: NormFn, verdicts: seq<Point> -> Option<nat -> bool>)
    requires !InBounds(skeleton, start.x, start.y)
    ensures MaskCurve(skeleton, Some(start), direction, c, region, norm, verdicts) == []
  {
    var pixels := SkeletonPixels(skeleton);
    if pixels != [] {
      TraceStart(skeleton, start, |pixels|, norm);
    }
  }

  lemma {:induction false} PhysicalPointsFrom(ps: seq<Point>, c: Calibration)
    ensures |PhysicalPoints(ps, c)| == |ps|
    ensures forall q :: q in PhysicalPoints(ps, c) ==> exists p :: p in ps && q == ToPhysical(c, p.x, p.y)
    decreases |ps|
  {
    if ps != [] {
      var front := ps[..|ps| - 1];
      PhysicalPointsFrom(front, c);
      forall q | q in PhysicalPoints(front, c) ensures exists p :: p in ps && q == ToPhysical(c, p.x, p.y) {
        var p :| p in front && q == ToPhysical(c, p.x, p.y);
        assert p in ps;
      }
      assert ps[|ps| - 1] in ps;
    }
  }

  /** Every sampled point is the point of one of the first `n` columns, and
      there are at most `n` of them. */
  lemma {:induction false} SampledFrom(xs: seq<int>, columns: map<int, seq<int>>, step: nat, n: nat)
    requires n <= |xs| && step > 0
    requires forall x :: x in xs ==> x in columns && columns[x] != []
    ensures |SampledBefore(xs, columns, step, n)| <= n
    ensures forall q :: q in SampledBefore(xs, columns, step, n) ==>
      exists i :: 0 <= i < n && q == ColumnPoint(xs, columns, i)
    decreases n
  {
    if n > 0 {
      SampledFrom(xs, columns, step, n - 1);
    }
  }

  /** `q` is column `x` of `columns` at the median of its rows, for some `x`. */
  ghost predicate IsColumnMedian(columns: map<int, seq<int>>, q: Point)
  {
    exists x :: x in columns && columns[x] != [] && q == Point(x as real, Median(columns[x]))
  }

  /** Every point sampled from columns that are all present and nonempty is
      one of those columns at its median row. */
  lemma SampledAreColumnMedians(xs: seq<int>, columns: map<int, seq<int>>, step: nat)
    requires step > 0
    requires forall x :: x in xs ==> x in columns && columns[x] != []
    ensures |SampledBefore(xs, columns, step, |xs|)| <= |xs|
    ensures forall q :: q in SampledBefore(xs, columns, step, |xs|) ==> IsColumnMedian(columns, q)
  {
    SampledFrom(xs, columns, step, |xs|);
    forall q | q in SampledBefore(xs, columns, step, |xs|) ensures IsColumnMedian(columns, q) {
      var i :| 0 <= i < |xs| && q == ColumnPoint(xs, columns, i);
      assert xs[i] in xs;
    }
  }

  /** Every column point names a column of the pixels with its median row,
      and there is at most one per column. */
  lemma ColumnMediansFrom(inside: seq<Pixel>, downsample: int)
    ensures |ColumnMedians(inside, downsample)| <= |KeyOrder(inside)|
    ensures forall q :: q in ColumnMedians(inside, downsample) ==> IsColumnMedian(ColumnsOf(inside), q)
  {
    var xs := SortBy(KeyOrder(inside), IntKey);
    ColumnKeys(inside);
    SortByMembers(KeyOrder(inside), IntKey);
    SampledAreColumnMedians(xs, ColumnsOf(inside), StepOf(downsample));
  }

  /** Converting sampled points and cleaning them gives points sorted by x,
      no more than were sampled, each the physical image of a sampled point. */
  lemma CleanedPhysicalFrom(medians: seq<Point>, c: Calibration, verdicts: seq<Point> -> Option<nat -> bool>)
    ensures var r := CleanCurve(PhysicalPoints(medians, c), verdicts);
      SortedBy(r, PointX) && |r| <= |medians|
      && forall q :: q in r ==> exists p :: p in medians && q == ToPhysical(c, p.x, p.y)
  {
    var physical := PhysicalPoints(medians, c);
    var r := CleanCurve(physical, verdicts);
    CleanCurveShape(physical, verdicts);
    PhysicalPointsFrom(medians, c);
    forall q | q in r ensures q in physical {
      assert q in multiset(r);
    }
  }

  /** Without smoothing, `extract_curve` returns points sorted by x, at most
      one per skeleton column inside the plot region, each the physical image
      of such a column at its median row. */
  lemma SkeletonCurveShape(skeleton: Grid, c: Calibration, region: Option<Region>, downsample: int,
                           smoother: seq<Point> -> seq<Point>, verdicts: seq<Point> -> Option<nat -> bool>)
    ensures var r := SkeletonCurve(skeleton, c, region, downsample, false, smoother, verdicts);
      var inside := RegionPixels(SkeletonPixels(skeleton), region);
      SortedBy(r, PointX) && |r| <= |KeyOrder(inside)|
      && forall q :: q in r ==>
        exists p :: IsColumnMedian(ColumnsOf(inside), p) && q == ToPhysical(c, p.x, p.y)
  {
    var inside := RegionPixels(SkeletonPixels(skeleton), region);
    if inside != [] {
      var medians := ColumnMedians(inside, downsample);
      var r := CleanCurve(PhysicalPoints(medians, c), verdicts);
      assert r == SkeletonCurve(skeleton, c, region, downsample, false, smoother, verdicts);
      CleanedPhysicalFrom(medians, c, verdicts);
      ColumnMediansFrom(inside, downsample);
      forall q | q in r
        ensures exists p :: IsColumnMedian(ColumnsOf(inside), p) && q == ToPhysical(c, p.x, p.y)
      {
        var p :| p in medians && q == ToPhysical(c, p.x, p.y);
      }
    }
  }
}
