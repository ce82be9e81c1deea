/** Gap detection of `repair_curve_gaps`: between two points neighbouring in
    x order lies a gap when their x distance is more than three times the
    average spacing of the curve, taken as its x span over its number of
    points. */
module Gaps {
  import opened Support

  /** A reported gap: the points on either side of it. */
  datatype Gap = Gap(before: Point, after: Point)

  /** The x span of the sorted points over their number. */
  function AverageSpacing(sp: seq<Point>): real
    requires sp != []
  {
    (sp[|sp| - 1].x - sp[0].x) / |sp| as real
  }

  predicate IsGapAt(sp: seq<Point>, i: nat)
    requires i + 1 < |sp|
  {
    sp[i + 1].x - sp[i].x > AverageSpacing(sp) * 3.0
  }

  function GapAt(sp: seq<Point>, i: nat): Gap
    requires i + 1 < |sp|
  {
    Gap(sp[i], sp[i + 1])
  }

  /** The gaps after the first `n` points of `sp`, in order. */
  function GapsBefore(sp: seq<Point>, n: nat): seq<Gap>
    requires n < |sp|
  {
    if n == 0 then []
    else
      var rest := GapsBefore(sp, n - 1);
      if IsGapAt(sp, n - 1) then rest + [GapAt(sp, n - 1)] else rest
  }

  /** The gaps of a curve: none for fewer than two points, otherwise those
      between neighbours of the x-sorted points. */
  function Gaps(points: seq<Point>): seq<Gap>
  {
    if |points| > 1 then
      var sp := SortBy(points, PointX);
      GapsBefore(sp, |sp| - 1)
    else []
  }

  /** The gap scan of `repair_curve_gaps`. */
  method DetectGaps(points: seq<Point>) returns (gaps: seq<Gap>)
    ensures gaps == Gaps(points)
  {
    gaps := [];
    if |points| > 1 {
      var sortedPoints := SortBy(points, PointX);
      for i := 0 to |sortedPoints| - 1
        invariant gaps == GapsBefore(sortedPoints, i)
      {
        var xDiff := sortedPoints[i + 1].x - sortedPoints[i].x;
        var avgSpacing := (sortedPoints[|sortedPoints| - 1].x - sortedPoints[0].x) / |sortedPoints| as real;
        if xDiff > avgSpacing * 3.0 {
          gaps := gaps + [Gap(sortedPoints[i], sortedPoints[i + 1])];
        }
      }
    }
  }

  // ---------------------------------------------------------------------
  // Properties

  /** Every gap listed is the pair around a gap position before `n`. */
  lemma {:induction false} GapsSound(sp: seq<Point>, n: nat)
    requires n < |sp|
    ensures forall g :: g in GapsBefore(sp, n) ==>
      exists i :: 0 <= i < n && IsGapAt(sp, i) && g == GapAt(sp, i)
    decreases n
  {
    if n > 0 {
      GapsSound(sp, n - 1);
    }
  }

  /** Every gap position before `n` is listed. */
  lemma {:induction false} GapsComplete(sp: seq<Point>, n: nat)
    requires n < |sp|
    ensures forall i :: 0 <= i < n && IsGapAt(sp, i) ==> GapAt(sp, i) in GapsBefore(sp, n)
    decreases n
  {
    if n > 0 {
      GapsComplete(sp, n - 1);
    }
  }

  /** On x-sorted points the gaps come in x order: each ends no later than
      the next one starts. */
  lemma {:induction false} GapsOrdered(sp: seq<Point>, n: nat)
    requires n < |sp| && SortedBy(sp, PointX)
    ensures forall k, l :: 0 <= k < l < |GapsBefore(sp, n)| ==>
      GapsBefore(sp, n)[k].after.x <= GapsBefore(sp, n)[l].before.x
    decreases n
  {
    if n > 0 {
      GapsOrdered(sp, n - 1);
      var rest := GapsBefore(sp, n - 1);
      if IsGapAt(sp, n - 1) {
        GapsSound(sp, n - 1);
        forall k | 0 <= k < |rest| ensures rest[k].after.x <= sp[n - 1].x {
          assert rest[k] in rest;
          var i :| 0 <= i < n - 1 && IsGapAt(sp, i) && rest[k] == GapAt(sp, i);
          assert PointX(sp[i + 1]) <= PointX(sp[n - 1]) || i + 1 == n - 1;
        }
      }
    }
  }

  /** The gaps before `n`, `c` of them, span at least `c` times the gap
      threshold, and more when there is one. */
  lemma {:induction false} GapsSpan(sp: seq<Point>, n: nat)
    requires n < |sp| && SortedBy(sp, PointX)
    ensures Times(|GapsBefore(sp, n)|, AverageSpacing(sp) * 3.0) <= sp[n].x - sp[0].x
    ensures |GapsBefore(sp, n)| > 0 ==> Times(|GapsBefore(sp, n)|, AverageSpacing(sp) * 3.0) < sp[n].x - sp[0].x
    decreases n
  {
    if n > 0 {
      GapsSpan(sp, n - 1);
      assert PointX(sp[n - 1]) <= PointX(sp[n]);
    }
  }

  lemma GapCountBound(c: nat, n: nat, d: real)
    requires n > 0 && d >= 0.0
    requires c as real * (d / n as real * 3.0) < d
    ensures 3 * c < n
  {
    var q := d / n as real;
    assert q * n as real == d;
    assert c as real * (q * 3.0) == (3 * c) as real * q;
    if q > 0.0 {
      MulCancel((3 * c) as real, n as real, q);
    } else {
      ZeroMul(d);
    }
  }

  /** Fewer than a third of the neighbour pairs can be gaps: a curve of `n`
      points has fewer than `n / 3` gaps, and none for fewer than two
      points. */
  lemma FewGaps(points: seq<Point>)
    ensures |points| <= 1 ==> Gaps(points) == []
    ensures points != [] ==> 3 * |Gaps(points)| < |points|
  {
    if |points| > 1 {
      var sp := SortBy(points, PointX);
      SortBySorted(points, PointX);
      var c := |GapsBefore(sp, |sp| - 1)|;
      GapsSpan(sp, |sp| - 1);
      if c > 0 {
        TimesIsProduct(c, AverageSpacing(sp) * 3.0);
        assert PointX(sp[0]) <= PointX(sp[|sp| - 1]);
        GapCountBound(c, |sp|, sp[|sp| - 1].x - sp[0].x);
      }
    }
  }

  /** `repair_curve_gaps` reports exactly the neighbour pairs of the sorted
      points whose distance exceeds the threshold, in x order. */
  lemma GapsMeaning(points: seq<Point>)
    requires |points| > 1
    ensures var sp := SortBy(points, PointX);
      (forall i :: 0 <= i < |sp| - 1 ==> (IsGapAt(sp, i) <==> GapAt(sp, i) in Gaps(points)))
      && (forall k, l :: 0 <= k < l < |Gaps(points)| ==> Gaps(points)[k].after.x <= Gaps(points)[l].before.x)
  {
    var sp := SortBy(points, PointX);
    SortBySorted(points, PointX);
    GapsSound(sp, |sp| - 1);
    GapsComplete(sp, |sp| - 1);
    GapsOrdered(sp, |sp| - 1);
    forall i | 0 <= i < |sp| - 1 && GapAt(sp, i) in Gaps(points) ensures IsGapAt(sp, i) {
      var j :| 0 <= j < |sp| - 1 && IsGapAt(sp, j) && GapAt(sp, i) == GapAt(sp, j);
      assert sp[i] == sp[j] && sp[i + 1] == sp[j + 1];
    }
  }
}
