/** Colour names for HSV samples (`_get_color_names`, `_hsv_to_color_name`)
    and the HSV acceptance range built around a target colour for
    `cv2.inRange` (in `extract_curve` and `create_mask_from_color`).

    Values follow OpenCV's 8-bit HSV: hue 0..179, saturation and value
    0..255. */
module Colors {
  import opened Support

  /** One table entry: a name, an inclusive hue range and minimum
      saturation and value. */
  datatype ColorEntry = ColorEntry(name: string, hMin: int, hMax: int, sMin: int, vMin: int)

  const Black: string := "黑色"
  const White: string := "白色"
  const Gray: string := "灰色"
  const Unknown: string := "未知色"

  /** The table in its insertion order, which is the order the lookup tries. */
  function ColorTable(): (t: seq<ColorEntry>)
    ensures |t| == 12
  {
    [ ColorEntry("红色", 0, 10, 100, 100),
      ColorEntry("红色2", 170, 180, 100, 100),
      ColorEntry("橙色", 10, 25, 100, 100),
      ColorEntry("黄色", 25, 35, 100, 100),
      ColorEntry("绿色", 35, 85, 100, 100),
      ColorEntry("青色", 85, 100, 100, 100),
      ColorEntry("蓝色", 100, 130, 100, 100),
      ColorEntry("紫色", 130, 155, 100, 100),
      ColorEntry("粉色", 155, 170, 50, 100),
      ColorEntry(Black, 0, 180, 0, 0),
      ColorEntry(White, 0, 180, 0, 200),
      ColorEntry(Gray, 0, 180, 0, 50) ]
  }

  predicate IsAchromatic(name: string)
  {
    name == Black || name == White || name == Gray
  }

  /** A chromatic entry whose ranges hold the sample. */
  predicate Accepts(e: ColorEntry, h: int, s: int, v: int)
  {
    !IsAchromatic(e.name) && e.hMin <= h <= e.hMax && s >= e.sMin && v >= e.vMin
  }

  /** The index of the first entry from `i` on that accepts the sample. */
  function FirstAccepting(t: seq<ColorEntry>, i: nat, h: int, s: int, v: int): (r: Option<nat>)
    requires i <= |t|
    ensures r.Some? ==>
              i <= r.value < |t| && Accepts(t[r.value], h, s, v)
              && forall j :: i <= j < r.value ==> !Accepts(t[j], h, s, v)
    ensures r.None? ==> forall j :: i <= j < |t| ==> !Accepts(t[j], h, s, v)
    decreases |t| - i
  {
    if i == |t| then None
    else if Accepts(t[i], h, s, v) then Some(i)
    else FirstAccepting(t, i + 1, h, s, v)
  }

  /** Low saturation is black, white or grey by value alone; otherwise the
      first chromatic table entry that accepts the sample names it, and a
      sample that no entry accepts is unknown. */
  function HsvToColorName(h: int, s: int, v: int): string
  {
    if s < 30 then
      if v < 50 then Black else if v > 200 then White else Gray
    else
      match FirstAccepting(ColorTable(), 0, h, s, v)
      case None => Unknown
      case Some(i) => ColorTable()[i].name
  }

  /** A low-saturation sample is black below value 50, white above 200 and
      grey in between, whatever its hue. */
  lemma LowSaturationIsAchromatic(h: int, s: int, v: int)
    requires s < 30
    ensures HsvToColorName(h, s, v) == Black <==> v < 50
    ensures HsvToColorName(h, s, v) == White <==> v > 200
    ensures HsvToColorName(h, s, v) == Gray <==> 50 <= v <= 200
  {
  }

  /** A saturated sample is never black, white or grey: it takes the name of
      the first chromatic entry that accepts it, or is unknown when none does. */
  lemma SaturatedIsChromatic(h: int, s: int, v: int)
    requires s >= 30
    ensures !IsAchromatic(HsvToColorName(h, s, v))
    ensures HsvToColorName(h, s, v) == Unknown <==>
      forall j :: 0 <= j < |ColorTable()| ==> !Accepts(ColorTable()[j], h, s, v)
    ensures HsvToColorName(h, s, v) != Unknown ==>
      exists i :: 0 <= i < |ColorTable()| && Accepts(ColorTable()[i], h, s, v)
                  && HsvToColorName(h, s, v) == ColorTable()[i].name
                  && forall j :: 0 <= j < i ==> !Accepts(ColorTable()[j], h, s, v)
  {
    var t := ColorTable();
    var r := FirstAccepting(t, 0, h, s, v);
    if r.Some? {
      assert !IsAchromatic(t[r.value].name);
      assert t[r.value].name != Unknown;
    }
  }

  /** Saturation between 30 and 49 names no colour: only pink accepts
      saturation below 100, and it needs 50. */
  lemma PaleIsUnknown(h: int, s: int, v: int)
    requires 30 <= s < 50
    ensures HsvToColorName(h, s, v) == Unknown
  {
    SaturatedIsChromatic(h, s, v);
  }

  /** A saturated sample darker than value 100 names no colour. */
  lemma DarkIsUnknown(h: int, s: int, v: int)
    requires s >= 30 && v < 100
    ensures HsvToColorName(h, s, v) == Unknown
  {
    SaturatedIsChromatic(h, s, v);
  }

  /** Hue 10 lies in both the red and the orange range; red comes first. */
  lemma SharedHueTakesFirst(s: int, v: int)
    requires s >= 100 && v >= 100
    ensures HsvToColorName(10, s, v) == "红色"
  {
  }

  // ---------------------------------------------------------------------
  // Acceptance range around a target colour

  datatype Hsv = Hsv(h: int, s: int, v: int)

  /** The inclusive bounds passed to `cv2.inRange`. */
  datatype HsvBounds = HsvBounds(lower: Hsv, upper: Hsv)

  /** Both range builders first decide whether the target is grey; the one in
      `extract_curve` writes the test as `(s < 30 and v > 80) or s < 30`,
      which is `s < 30`. */
  predicate IsGrayscaleTarget(target: Hsv)
  {
    (target.s < 30 && target.v > 80) || target.s < 30
  }

  /** A grey target accepts every hue and saturations up to 100, and values
      within the tolerance; a coloured one accepts hues within at most 15,
      saturations within the tolerance plus 10 but at least 30, and values
      within the tolerance plus 20 but at least 30.  Every bound is clamped to
      the channel's range. */
  function HsvRange(target: Hsv, tolerance: int): (b: HsvBounds)
    ensures 0 <= b.lower.h && b.upper.h <= 179
    ensures 0 <= b.lower.s && b.upper.s <= 255
    ensures 0 <= b.lower.v && b.upper.v <= 255
    ensures !IsGrayscaleTarget(target) ==> 30 <= b.lower.s && 30 <= b.lower.v && b.upper.h - b.lower.h <= 30
    ensures IsHsv(target) && tolerance >= 0 ==> IsHsv(b.lower) && IsHsv(b.upper)
  {
    if IsGrayscaleTarget(target) then
      HsvBounds(Hsv(0, 0, MaxInt(0, target.v - tolerance)), Hsv(179, 100, MinInt(255, target.v + tolerance)))
    else
      var hTol, sTol, vTol := MinInt(tolerance, 15), tolerance + 10, tolerance + 20;
      HsvBounds(Hsv(MaxInt(0, target.h - hTol), MaxInt(30, target.s - sTol), MaxInt(30, target.v - vTol)),
                Hsv(MinInt(179, target.h + hTol), MinInt(255, target.s + sTol), MinInt(255, target.v + vTol)))
  }

  /** The two range builders agree on which targets are grey. */
  lemma GrayscaleTestsAgree(target: Hsv)
    ensures IsGrayscaleTarget(target) <==> target.s < 30
  {
  }

  /** `cv2.inRange`'s test for one pixel. */
  predicate InRange(b: HsvBounds, c: Hsv)
  {
    b.lower.h <= c.h <= b.upper.h && b.lower.s <= c.s <= b.upper.s && b.lower.v <= c.v <= b.upper.v
  }

  predicate IsHsv(c: Hsv)
  {
    0 <= c.h <= 179 && 0 <= c.s <= 255 && 0 <= c.v <= 255
  }

  /** With a non-negative tolerance the range holds its own target, except a
      coloured target darker than value 30, which the floor on value excludes. */
  lemma RangeHoldsTarget(target: Hsv, tolerance: int)
    requires IsHsv(target) && tolerance >= 0
    ensures InRange(HsvRange(target, tolerance), target) <==> target.s < 30 || target.v >= 30
  {
  }

  /** A coloured range never admits a grey pixel, and a grey range never
      admits saturation above 100. */
  lemma RangeSeparatesGrey(target: Hsv, tolerance: int, c: Hsv)
    requires InRange(HsvRange(target, tolerance), c)
    ensures target.s >= 30 ==> c.s >= 30 && c.v >= 30
    ensures target.s < 30 ==> c.s <= 100
  {
  }

  /** Widening the tolerance never shrinks the range. */
  lemma RangeGrowsWithTolerance(target: Hsv, t1: int, t2: int, c: Hsv)
    requires t1 <= t2 && InRange(HsvRange(target, t1), c)
    ensures InRange(HsvRange(target, t2), c)
  {
  }
}
