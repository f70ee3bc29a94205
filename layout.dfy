/** The layout arithmetic of the screen sections: which moon and wind images are
    picked, where the day columns and the near-term temperature chart go, and where
    the sun and moon columns of the astronomy section are centred. Only the
    coordinates handed to the drawing library are modelled. */
module Layout {
  import opened CArith

  function Min(a: int, b: int): int { if a < b then a else b }

  // ---------------------------------------------------------------------------
  // Moon image (drawAstro)
  // ---------------------------------------------------------------------------

  /** The moon image for a rounded phase value `r` (age scaled to 0..imageCount):
      a full lunar month rounds to `imageCount`, which would be one past the last
      image, so it is folded back onto the last one. */
  function MoonImageIndex(r: int, imageCount: int): (index: int)
    requires imageCount > 0
    ensures 0 <= r <= imageCount ==> 0 <= index < imageCount
    ensures index != r <==> r == imageCount
    ensures 0 <= r <= imageCount ==> index == Min(r, imageCount - 1)
  {
    if r == imageCount then imageCount - 1 else r
  }

  /** The moon image for a moon age within one lunar month: the image whose phase
      is nearest to the age, scaled to 0..imageCount, except that the last half
      image before a full month also shows the last image. */
  function MoonImageOfAge(age: real, imageCount: int, lunarMonth: real): (index: int)
    requires imageCount > 0 && lunarMonth > 0.0
    requires 0.0 <= age <= lunarMonth
    ensures 0 <= index < imageCount
    ensures var x := age * (imageCount as real) / lunarMonth;
      x - 0.5 <= index as real <= x + 0.5 || (index == imageCount - 1 && x >= imageCount as real - 0.5)
    ensures age == lunarMonth ==> index == imageCount - 1
  {
    var x := age * (imageCount as real) / lunarMonth;
    ScaledWithin(age, imageCount as real, lunarMonth);
    RoundWithin(x, imageCount);
    assert age == lunarMonth ==> Round(x) == imageCount by {
      if age == lunarMonth { FullMonthRounds(age, imageCount, lunarMonth); }
    }
    MoonImageIndex(Round(x), imageCount)
  }

  /** A value in [0, n] rounds to a whole number in [0, n]. */
  lemma RoundWithin(x: real, n: int)
    requires 0.0 <= x <= n as real
    ensures 0 <= Round(x) <= n
  {
    var r := Round(x);
    assert (r as real) < (n as real) + 1.0;
  }

  /** 0 <= x <= m implies 0 <= x * n / m <= n. */
  lemma ScaledWithin(x: real, n: real, m: real)
    requires m > 0.0 && n >= 0.0 && 0.0 <= x <= m
    ensures 0.0 <= x * n / m <= n
  {
    var y := x * n / m;
    assert y * m == x * n;
    MulNonNegative(m - x, n);
    MulNonNegative(x, n);
    assert (n - y) * m == (m - x) * n;
    NonNegativeFactor(n - y, m);
    NonNegativeFactor(y, m);
  }

  /** A full lunar month scales and rounds to exactly `n`. */
  lemma FullMonthRounds(age: real, n: int, lunarMonth: real)
    requires lunarMonth > 0.0 && age == lunarMonth
    ensures Round(age * (n as real) / lunarMonth) == n
  {
    Cancel(lunarMonth, n as real);
    assert age * (n as real) / lunarMonth == n as real;
    RoundWhole(n);
  }

  /** A whole number rounds to itself. */
  lemma RoundWhole(n: int)
    ensures Round(n as real) == n
  {
    assert n as real - 0.5 <= Round(n as real) as real <= n as real + 0.5;
  }

  /** m * n / m == n. */
  lemma Cancel(m: real, n: real)
    requires m > 0.0
    ensures m * n / m == n
  {
    assert (m * n / m) * m == n * m;
  }

  lemma MulNonNegative(x: real, y: real)
    requires x >= 0.0 && y >= 0.0
    ensures x * y >= 0.0
  {
  }

  lemma NonNegativeFactor(x: real, b: real)
    requires b > 0.0 && x * b >= 0.0
    ensures x >= 0.0
  {
  }

  // ---------------------------------------------------------------------------
  // Wind rose (drawCurrentWeather)
  // ---------------------------------------------------------------------------

  /** The wind direction index for a rounded value `r` (degrees scaled to 0..8):
      a full turn, 8, wraps to north, 0. */
  function WindAngleIndex(r: int): (index: int)
    ensures 0 <= r <= 8 ==> 0 <= index <= 7 && index == r % 8
    ensures r <= 7 ==> index == r
  {
    if r > 7 then 0 else r
  }

  /** The wind direction index for a direction in degrees: the nearest of the eight
      compass points, 45 degrees apart, where 360 is north again. */
  function WindIndexOfDegrees(windDeg: real): (index: int)
    requires 0.0 <= windDeg <= 360.0
    ensures 0 <= index <= 7
    ensures windDeg - 22.5 <= (index * 45) as real <= windDeg + 22.5
      || (index == 0 && windDeg >= 337.5)
  {
    WindAngleIndex(Round(windDeg * 8.0 / 360.0))
  }

  // ---------------------------------------------------------------------------
  // Day columns (drawForecast)
  // ---------------------------------------------------------------------------

  /** How many day columns fit and half of a column's width. */
  datatype Columns = Columns(count: int, halfWidth: int)

  /** The columns of the day forecast between `left` and `right`: at most
      `dayCount` columns of at least 70 pixels. A section narrower than 70 pixels
      has no column, and the firmware then divides by zero: `None`. */
  function DayColumns(left: u16, right: u16, dayCount: int): (r: Option<Columns>)
    requires dayCount > 0
    ensures r.None? <==> ToU16(right - left) < 70
    ensures r.Some? ==> 1 <= r.value.count <= dayCount
  {
    var width := ToU16(right - left);
    var count := Min(dayCount, width / 70);
    if count == 0 then None else Some(Columns(count, width / (2 * count)))
  }

  /** The horizontal centre of column `i`. */
  function ColumnCentre(left: u16, c: Columns, i: int): int {
    left + c.halfWidth * (2 * i + 1)
  }

  /** a <= b and c >= 0 imply a * c <= b * c. */
  lemma MulMonotone(a: int, b: int, c: int)
    requires a <= b && c >= 0
    ensures a * c <= b * c
  {
  }

  /** The day columns exist exactly when the section is 70 pixels wide; then there
      are at most `dayCount` of them (so every one has a day forecast), each at least
      70 pixels wide, each column at least 35 pixels on either side of its centre. */
  lemma DayColumnsFit(left: u16, right: u16, dayCount: int)
    requires dayCount > 0
    ensures DayColumns(left, right, dayCount).None? <==> ToU16(right - left) < 70
    ensures DayColumns(left, right, dayCount).Some? ==>
      var c := DayColumns(left, right, dayCount).value;
      1 <= c.count <= dayCount && 70 * c.count <= ToU16(right - left)
      && 35 <= c.halfWidth && 2 * c.count * c.halfWidth <= ToU16(right - left)
    ensures DayColumns(left, right, dayCount).Some? ==>
      var c := DayColumns(left, right, dayCount).value;
      c.count == dayCount || 70 * (c.count + 1) > ToU16(right - left)
  {
    var width := ToU16(right - left);
    var count := Min(dayCount, width / 70);
    DivPlusOneExceeds(width, 70);
    if count > 0 {
      MulMonotone(count, width / 70, 70);
      var h := width / (2 * count);
      assert 2 * count * h <= width;
      assert 2 * count * 35 <= width;
      DivAtLeast(width, 2 * count, 35);
    }
  }

  /** The column centres are evenly spaced, 2 * halfWidth apart, and all lie in the
      section: from `left` up to, not including, `left + width`, which is `right`
      when the section does not wrap. */
  lemma DayColumnCentres(left: u16, right: u16, dayCount: int, i: int)
    requires dayCount > 0 && DayColumns(left, right, dayCount).Some?
    requires 0 <= i < DayColumns(left, right, dayCount).value.count
    ensures var c := DayColumns(left, right, dayCount).value;
      left < ColumnCentre(left, c, i) < left + ToU16(right - left)
      && ColumnCentre(left, c, i + 1) == ColumnCentre(left, c, i) + 2 * c.halfWidth
    ensures left <= right ==> ColumnCentre(left, DayColumns(left, right, dayCount).value, i) < right
  {
    DayColumnsFit(left, right, dayCount);
    var c := DayColumns(left, right, dayCount).value;
    ColumnSpacing(ToU16(right - left), c.count, c.halfWidth, i);
  }

  /** The spacing step of DayColumnCentres, on plain numbers. */
  lemma ColumnSpacing(width: int, n: int, h: int, i: int)
    requires 35 <= h && 2 * n * h <= width && 0 <= i < n
    ensures 0 < h * (2 * i + 1) < width
    ensures h * (2 * (i + 1) + 1) == h * (2 * i + 1) + 2 * h
  {
    MulMonotone(2 * i + 1, 2 * n - 1, h);
    assert (2 * n - 1) * h == 2 * n * h - h;
  }

  // ---------------------------------------------------------------------------
  // Near-term temperature chart (drawTodaysForecast)
  // ---------------------------------------------------------------------------

  /** The chart's band height in pixels. */
  const ChartHeight := 50

  /** The chart area after padding, the number of forecasts shown and the horizontal
      distance between them. */
  datatype Chart = Chart(left: u16, right: u16, width: u16, count: int, distX: int)

  /** How many forecasts the chart shows: at most `closeCount`, and as many as
      labels of `textWidth` pixels fit into `width`. */
  function SlotCount(width: int, textWidth: int, closeCount: int): int
    requires textWidth > 0
  {
    Min(closeCount, width / textWidth)
  }

  /** The chart between `left` and `right`, each padded by 10 pixels (16-bit
      arithmetic). With exactly one forecast the firmware divides by zero: `None`.
      With none, C's division by -1 gives a negative distance. */
  function TodaysChart(left: u16, right: u16, textWidth: int, closeCount: int): (r: Option<Chart>)
    requires textWidth > 0 && closeCount > 0
    ensures r.Some? ==> 0 <= r.value.count <= closeCount && r.value.count != 1
    ensures r.Some? && r.value.count >= 2 ==> r.value.distX >= 0
  {
    var l := ToU16(left + 10);
    var r := ToU16(right - 10);
    var width := ToU16(r - l);
    var count := SlotCount(width, textWidth, closeCount);
    assert 0 <= count && (count >= 2 ==> width / (count - 1) >= 0) by {
      DivNonNegative(width, textWidth);
      if count >= 2 {
        DivNonNegative(width, count - 1);
      }
    }
    if count == 1 then None
    else if count == 0 then Some(Chart(l, r, width, 0, -(width as int)))
    else Some(Chart(l, r, width, count, width / (count - 1)))
  }

  /** The x position of the i-th forecast of the chart. */
  function PointX(c: Chart, i: int): int {
    c.left + i * c.distX
  }

  /** A non-negative number over a positive one is not negative. */
  lemma DivNonNegative(a: int, b: int)
    requires a >= 0 && b > 0
    ensures a / b >= 0
  {
  }

  /** q * b <= a implies q <= a / b. */
  lemma DivAtLeast(a: int, b: int, q: int)
    requires b > 0 && q * b <= a
    ensures q <= a / b
  {
    var d := a / b;
    assert a == d * b + a % b;
    assert (q - d - 1) * b < 0;
    NegativeFactor(q - d - 1, b);
  }

  lemma NegativeFactor(x: int, b: int)
    requires b > 0 && x * b < 0
    ensures x < 0
  {
  }

  /** (a / b) * b <= a. */
  lemma DivTimesAtMost(a: int, b: int)
    requires b > 0
    ensures (a / b) * b <= a
  {
  }

  /** (a / b + 1) * b > a. */
  lemma DivPlusOneExceeds(a: int, b: int)
    requires b > 0
    ensures (a / b + 1) * b > a
  {
    assert a == (a / b) * b + a % b;
  }

  /** The slot count is at most `closeCount`, its labels fit side by side, and it
      is the largest such count: one more label would not fit. */
  lemma SlotsFit(width: int, textWidth: int, closeCount: int)
    requires textWidth > 0 && width >= 0 && closeCount > 0
    ensures 0 <= SlotCount(width, textWidth, closeCount) <= closeCount
    ensures SlotCount(width, textWidth, closeCount) * textWidth <= width
    ensures SlotCount(width, textWidth, closeCount) == closeCount
      || (SlotCount(width, textWidth, closeCount) + 1) * textWidth > width
  {
    var q := width / textWidth;
    DivTimesAtMost(width, textWidth);
    if SlotCount(width, textWidth, closeCount) != closeCount {
      assert SlotCount(width, textWidth, closeCount) == q;
      DivPlusOneExceeds(width, textWidth);
    }
    MulMonotone(SlotCount(width, textWidth, closeCount), width / textWidth, textWidth);
  }

  /** The chart fails exactly when one forecast fits; otherwise it shows at most
      `closeCount` forecasts whose labels fit side by side in its width. */
  lemma ChartSlots(left: u16, right: u16, textWidth: int, closeCount: int)
    requires textWidth > 0 && closeCount > 0
    ensures var c := TodaysChart(left, right, textWidth, closeCount);
      c.None? <==> SlotCount(ToU16(ToU16(right - 10) - ToU16(left + 10)), textWidth, closeCount) == 1
    ensures var c := TodaysChart(left, right, textWidth, closeCount);
      c.Some? ==> 0 <= c.value.count <= closeCount && c.value.count * textWidth <= c.value.width
  {
    SlotsFit(ToU16(ToU16(right - 10) - ToU16(left + 10)), textWidth, closeCount);
  }

  /** When the section is at least 20 pixels wide the padding takes 10 pixels off
      each side; when it is narrower the 16-bit width wraps around. */
  lemma ChartPadding(left: u16, right: u16, textWidth: int, closeCount: int)
    requires textWidth > 0 && closeCount > 0
    requires TodaysChart(left, right, textWidth, closeCount).Some?
    ensures var c := TodaysChart(left, right, textWidth, closeCount).value;
      left + 20 <= right ==> c.left == left + 10 && c.right == right - 10 && c.width == right - left - 20
    ensures var c := TodaysChart(left, right, textWidth, closeCount).value;
      left <= right < left + 20 ==> c.width > right - left
  {
  }

  /** With two or more forecasts the points move strictly to the right, and the
      last one is at most at the right edge of the chart. */
  lemma ChartPositions(left: u16, right: u16, textWidth: int, closeCount: int, i: int, j: int)
    requires textWidth > 0 && closeCount > 0
    requires TodaysChart(left, right, textWidth, closeCount).Some?
    requires 0 <= i < j < TodaysChart(left, right, textWidth, closeCount).value.count
    ensures var c := TodaysChart(left, right, textWidth, closeCount).value;
      c.left <= PointX(c, i) < PointX(c, j) <= c.left + c.width
    ensures var c := TodaysChart(left, right, textWidth, closeCount).value;
      c.left <= c.right ==> PointX(c, j) <= c.right
  {
    ChartSlots(left, right, textWidth, closeCount);
    var c := TodaysChart(left, right, textWidth, closeCount).value;
    ChartSpacing(c.width, c.count, textWidth, c.distX, i, j);
  }

  /** The spacing step of ChartPositions, on plain numbers. */
  lemma ChartSpacing(width: int, n: int, textWidth: int, distX: int, i: int, j: int)
    requires textWidth > 0 && 2 <= n && n * textWidth <= width
    requires distX == width / (n - 1)
    requires 0 <= i < j < n
    ensures 0 <= i * distX < j * distX <= width
  {
    ChartStep(width, n, textWidth, distX);
    MulMonotone(i + 1, j, distX);
    MulMonotone(j, n - 1, distX);
    MulMonotone(0, i, distX);
  }

  /** The distance between the points is at least one pixel and n - 1 of them
      fit into the width. */
  lemma ChartStep(width: int, n: int, textWidth: int, distX: int)
    requires textWidth > 0 && 2 <= n && n * textWidth <= width
    requires distX == width / (n - 1)
    ensures 1 <= distX && (n - 1) * distX <= width
  {
    MulMonotone(1, textWidth, n);
    DivAtLeast(width, n - 1, 1);
    DivTimesAtMost(width, n - 1);
  }

  /** The scan of the first `count` temperatures, starting from 1000 and -1000. */
  method ScanTemperatures(temps: seq<real>, count: nat) returns (minTemp: real, maxTemp: real)
    requires count <= |temps|
    ensures forall i :: 0 <= i < count ==> minTemp <= temps[i] <= maxTemp
    ensures minTemp == 1000.0 || exists i :: 0 <= i < count && temps[i] == minTemp
    ensures maxTemp == -1000.0 || exists i :: 0 <= i < count && temps[i] == maxTemp
    ensures minTemp <= 1000.0 && -1000.0 <= maxTemp
    ensures count > 0 ==> minTemp <= maxTemp
  {
    minTemp := 1000.0;
    maxTemp := -1000.0;
    for i := 0 to count
      invariant forall k :: 0 <= k < i ==> minTemp <= temps[k] <= maxTemp
      invariant minTemp == 1000.0 || exists k :: 0 <= k < i && temps[k] == minTemp
      invariant maxTemp == -1000.0 || exists k :: 0 <= k < i && temps[k] == maxTemp
      invariant minTemp <= 1000.0 && -1000.0 <= maxTemp
    {
      minTemp := if temps[i] < minTemp then temps[i] else minTemp;
      maxTemp := if maxTemp < temps[i] then temps[i] else maxTemp;
    }
    if count > 0 {
      assert minTemp <= temps[0] <= maxTemp;
    }
  }

  /** The vertical scale: the 39 usable pixels of the band over the temperature
      range, or 1 when the range is empty. */
  function FactorY(minTemp: real, maxTemp: real): (factor: real)
    ensures factor > 0.0
    ensures maxTemp > minTemp ==> factor * (maxTemp - minTemp) == (ChartHeight - 11) as real
    ensures maxTemp <= minTemp ==> factor == 1.0
  {
    if maxTemp > minTemp then (ChartHeight - 11) as real / (maxTemp - minTemp) else 1.0
  }

  /** The scaled height of a temperature above the band's bottom, before rounding. */
  function Offset(t: real, minTemp: real, maxTemp: real): real {
    (t - minTemp) * FactorY(minTemp, maxTemp)
  }

  /** The y coordinate of a temperature's point. */
  function PointY(top: int, t: real, minTemp: real, maxTemp: real): (y: int)
    ensures t == minTemp ==> y == top + ChartHeight - 1
  {
    top + ChartHeight - Round(Offset(t, minTemp, maxTemp)) - 1
  }

  /** Every scanned temperature is drawn inside the band: its offset is between 0
      and 39 pixels, the lowest temperature at the bottom and, when the range is not
      empty, the highest at the top. */
  lemma PointsInsideBand(top: int, t: real, minTemp: real, maxTemp: real)
    requires minTemp <= t <= maxTemp
    ensures 0.0 <= Offset(t, minTemp, maxTemp) <= (ChartHeight - 11) as real
    ensures top + 10 <= PointY(top, t, minTemp, maxTemp) <= top + ChartHeight - 1
    ensures t == minTemp ==> PointY(top, t, minTemp, maxTemp) == top + ChartHeight - 1
    ensures t == maxTemp > minTemp ==> PointY(top, t, minTemp, maxTemp) == top + 10
  {
    if maxTemp > minTemp {
      ScaledBelow(t - minTemp, maxTemp - minTemp, FactorY(minTemp, maxTemp));
    }
    RoundOfWhole(0);
    RoundOfWhole(39);
    if t == minTemp {
      assert Offset(t, minTemp, maxTemp) == 0.0;
      assert Round(Offset(t, minTemp, maxTemp)) == 0;
    }
    if t == maxTemp > minTemp {
      assert Offset(t, minTemp, maxTemp) == 39.0;
    }
  }

  /** Whole numbers round to themselves. */
  lemma RoundOfWhole(n: int)
    ensures Round(n as real) == n
  {
  }

  /** A distance d within a range D, scaled by the factor that maps D to 39. */
  lemma ScaledBelow(d: real, range: real, factor: real)
    requires 0.0 <= d <= range && factor > 0.0 && factor * range == 39.0
    ensures 0.0 <= d * factor <= 39.0
    ensures d == 0.0 ==> d * factor == 0.0
    ensures d == range ==> d * factor == 39.0
  {
    MulNonNegative(range - d, factor);
    MulNonNegative(d, factor);
    assert d * factor == range * factor - (range - d) * factor;
  }

  // ---------------------------------------------------------------------------
  // Sun and moon columns (drawAstro)
  // ---------------------------------------------------------------------------

  /** The centres of the sun and moon text columns (32-bit unsigned arithmetic on a
      16-bit width) and the x coordinate of the 74-pixel moon image. */
  datatype Astro = Astro(center: u16, sunCenter: u32, moonCenter: u32, moonImageX: int)

  /** The sun column's offset from `left`: half of the room left of the moon image,
      computed in int and stored as `uint32_t`. */
  function SunOffset(width: int): u32 {
    ToU32(CDiv(width / 2 - 37, 2))
  }

  /** `drawAstro`'s centres; without wrap-around the section's centre is its midpoint. */
  function AstroLayout(left: u16, right: u16): (a: Astro)
    ensures left <= right ==> a.center == left + (right - left) / 2
  {
    var width := ToU16(right - left);
    var center := ToU16(left + width / 2);
    var sunOffset := SunOffset(width);
    var moonOffset := ToU32(width - sunOffset);
    Astro(center, ToU32(sunOffset + left), ToU32(moonOffset + left), center - 37)
  }

  /** Sums of numbers congruent modulo 2^32 are congruent. */
  lemma CongruentSum(a: int, ra: int, b: int, rb: int)
    requires (a - ra) % 0x1_0000_0000 == 0 && (b - rb) % 0x1_0000_0000 == 0
    ensures (a + b - ra - rb) % 0x1_0000_0000 == 0
  {
    var k1 := (a - ra) / 0x1_0000_0000;
    var k2 := (b - rb) / 0x1_0000_0000;
    assert a + b - ra - rb == (k1 + k2) * 0x1_0000_0000;
  }

  /** The two columns are mirror images about the middle of the section: their
      offsets from `left` add up to the width, modulo 2^32. */
  lemma AstroMirror(left: u16, right: u16)
    ensures var a := AstroLayout(left, right);
      (2 * left + ToU16(right - left) - a.sunCenter - a.moonCenter) % 0x1_0000_0000 == 0
  {
    MirrorOffsets(left, ToU16(right - left), SunOffset(ToU16(right - left)));
  }

  /** Placing an offset and its complement to the width, both from `left`, in
      32-bit arithmetic: they add up to twice `left` plus the width modulo 2^32. */
  lemma MirrorOffsets(left: int, width: int, s: int)
    ensures (2 * left + width - ToU32(s + left) - ToU32(ToU32(width - s) + left)) % 0x1_0000_0000 == 0
  {
    var m := ToU32(width - s);
    CongruentSum(s + left, ToU32(s + left), m + left, ToU32(m + left));
    CongruentSum(s + left + m + left - ToU32(s + left) - ToU32(m + left), 0, width - s - m, 0);
  }

  /** In a section at least 74 pixels wide nothing wraps: the sun column is centred
      between `left` and the left edge of the moon image, the moon column lies as far
      right of the middle as the sun column lies left of it, beyond the image, and
      both stay inside the section. */
  lemma AstroColumnsApart(left: u16, right: u16)
    requires left <= right && right - left >= 74
    ensures var a := AstroLayout(left, right);
      && a.center == left + (right - left) / 2
      && a.sunCenter - left == (a.moonImageX - left) / 2
      && left <= a.sunCenter <= a.moonImageX
      && a.center + 37 <= a.moonCenter <= right
      && a.sunCenter + a.moonCenter == left + right
  {
  }

  /** Because C's division truncates toward zero, the sun column stays at or right
      of `left` for widths 72 and 73 too; below 72 its offset is negative and the
      32-bit centre wraps around to just below `left`. */
  lemma AstroNarrowWraps(left: u16, right: u16)
    requires left <= right
    ensures right - left >= 72 <==> CDiv((right - left) / 2 - 37, 2) >= 0
    ensures right - left < 72 ==>
      -18 <= CDiv((right - left) / 2 - 37, 2) <= -1 &&
      (AstroLayout(left, right).sunCenter - left) % 0x1_0000_0000 == 0x1_0000_0000 + CDiv((right - left) / 2 - 37, 2)
  {
    var width: int := right - left;
    assert ToU16(right - left) == width;
    SunOffsetSign(width);
    if width < 72 {
      NarrowSunOffset(width);
      var s := SunOffset(width);
      var sun := AstroLayout(left, right).sunCenter;
      assert sun == ToU32(s + left);
      CongruentSum(s + left, sun, -(left as int), -(left as int));
      var k := (s - (sun - left)) / 0x1_0000_0000;
      assert sun - left - s == -k * 0x1_0000_0000;
      RemainderOfCongruent(sun - left, s);
    }
  }

  /** The truncated offset is negative exactly below 72 pixels. */
  lemma SunOffsetSign(width: int)
    requires 0 <= width
    ensures width >= 72 <==> CDiv(width / 2 - 37, 2) >= 0
  {
  }

  /** Below 72 pixels the truncated offset is negative and wraps around. */
  lemma NarrowSunOffset(width: int)
    requires 0 <= width < 72
    ensures -18 <= CDiv(width / 2 - 37, 2) <= -1
    ensures SunOffset(width) == 0x1_0000_0000 + CDiv(width / 2 - 37, 2)
  {
  }
}
