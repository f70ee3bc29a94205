/** Calendar arithmetic of src/util.h: `days_from_epoch`, Howard Hinnant's
    days-from-civil algorithm over the proleptic Gregorian calendar, and
    `mkgmtime`, which normalises a broken-down UTC time and turns it into seconds
    since 1970-01-01 00:00:00. */
module Calendar {
  import opened CArith

  predicate IsLeapYear(y: int) {
    y % 4 == 0 && (y % 100 != 0 || y % 400 == 0)
  }

  function DaysInMonth(y: int, m: int): int
    requires 1 <= m <= 12
  {
    if m == 2 then (if IsLeapYear(y) then 29 else 28)
    else if m == 4 || m == 6 || m == 9 || m == 11 then 30
    else 31
  }

  /** Year, month 1-12, day of month 1-28..31. */
  predicate ValidDate(y: int, m: int, d: int) {
    1 <= m <= 12 && 1 <= d <= DaysInMonth(y, m)
  }

  datatype Date = Date(year: int, month: int, day: int)

  /** The calendar date following a valid date. */
  function NextDate(y: int, m: int, d: int): (r: Date)
    requires ValidDate(y, m, d)
    ensures ValidDate(r.year, r.month, r.day)
  {
    if d < DaysInMonth(y, m) then Date(y, m, d + 1)
    else if m < 12 then Date(y, m + 1, 1)
    else Date(y + 1, 1, 1)
  }

  /** `y -= m <= 2`: the algorithm's years start on March 1, so January and
      February count to the previous year. */
  function ShiftedYear(y: int, m: int): int {
    if m <= 2 then y - 1 else y
  }

  /** `doy`: the day within the March-based year. */
  function DayOfYear(m: int, d: int): int {
    CDiv(153 * (m + (if m > 2 then -3 else 9)) + 2, 5) + d - 1
  }

  /** `doe`: the day within the 400-year era, given the year of the era. */
  function DayOfEra(yoe: int, doy: int): int {
    yoe * 365 + CDiv(yoe, 4) - CDiv(yoe, 100) + doy
  }

  /** `days_from_epoch` as written: the era is `y / 400` with C's truncating
      division, so for a negative shifted year the era is one too high and the
      year of the era negative. */
  function DaysFromEpochAsWritten(y: int, m: int, d: int): (r: int)
    ensures ShiftedYear(y, m) >= 0 ==> r == DaysFromEpoch(y, m, d)
  {
    var yp := ShiftedYear(y, m);
    var era := CDiv(yp, 400);
    var yoe := yp - era * 400;
    era * 146097 + DayOfEra(yoe, DayOfYear(m, d)) - 719468
  }

  /** `days_from_epoch` as the algorithm publishes it: the era is rounded toward
      minus infinity, `(y >= 0 ? y : y - 399) / 400` in C (`EraIsFloor`), so the
      year of the era is always in [0, 399] and its divisions need no rounding
      direction. */
  function DaysFromEpoch(y: int, m: int, d: int): (r: int)
    ensures ValidDate(y, m, d) ==>
      var era := ShiftedYear(y, m) / 400;
      era * 146097 - 719468 <= r < (era + 1) * 146097 - 719468
  {
    var yp := ShiftedYear(y, m);
    var era := yp / 400;
    var yoe := yp % 400;
    assert ValidDate(y, m, d) ==> 0 <= yoe * 365 + yoe / 4 - yoe / 100 + DayOfYear(m, d) <= 146096 by {
      if ValidDate(y, m, d) {
        DayOfYearRange(y, m, d);
        DayOfEraRange(yoe, DayOfYear(m, d));
      }
    }
    era * 146097 + yoe * 365 + yoe / 4 - yoe / 100 + DayOfYear(m, d) - 719468
  }

  /** The published era expression, in C, is the floor of the shifted year over
      400, and the year of the era is what remains. */
  lemma EraIsFloor(yp: int)
    ensures CDiv(if yp >= 0 then yp else yp - 399, 400) == yp / 400
    ensures yp - (yp / 400) * 400 == yp % 400
  {
    var q := CDiv(if yp >= 0 then yp else yp - 399, 400);
    if yp < 0 {
      assert q * 400 - 400 < yp - 399 <= q * 400;
      assert q * 400 <= yp < q * 400 + 400;
    }
  }

  /** For a valid date, `doy` lies in [0, 365]. */
  lemma DayOfYearRange(y: int, m: int, d: int)
    requires ValidDate(y, m, d)
    ensures 0 <= DayOfYear(m, d) <= 365
  {
  }

  /** For a year of the era in [0, 399] and `doy` in [0, 365], `doe` lies in
      [0, 146096]. */
  lemma DayOfEraRange(yoe: int, doy: int)
    requires 0 <= yoe <= 399 && 0 <= doy <= 365
    ensures 0 <= DayOfEra(yoe, doy) <= 146096
  {
    assert yoe / 4 <= 99 && yoe / 100 <= 3 && yoe / 100 <= yoe / 4;
  }

  /** The corrected era keeps `yoe` in [0, 399], so `doe` stays in [0, 146096]
      for every valid date. */
  lemma CorrectedRanges(y: int, m: int, d: int)
    requires ValidDate(y, m, d)
    ensures var yoe := ShiftedYear(y, m) % 400;
      0 <= yoe <= 399 && 0 <= DayOfEra(yoe, DayOfYear(m, d)) <= 146096
  {
    DayOfYearRange(y, m, d);
    DayOfEraRange(ShiftedYear(y, m) % 400, DayOfYear(m, d));
  }

  /** The corrected day number is whole eras plus `doe`, as in the algorithm. */
  lemma CorrectedByEra(y: int, m: int, d: int)
    ensures var yp := ShiftedYear(y, m);
      DaysFromEpoch(y, m, d) == (yp / 400) * 146097 + DayOfEra(yp % 400, DayOfYear(m, d)) - 719468
  {
  }

  /** Both versions agree on every date from 0000-03-01 on, that is whenever the
      shifted year is not negative; in particular for every year from 1. */
  lemma AsWrittenAgrees(y: int, m: int, d: int)
    requires ShiftedYear(y, m) >= 0
    ensures DaysFromEpochAsWritten(y, m, d) == DaysFromEpoch(y, m, d)
  {
    CorrectedByEra(y, m, d);
  }

  /** 1970-01-01 is day 0. */
  lemma EpochIsDayZero()
    ensures DaysFromEpoch(1970, 1, 1) == 0
    ensures DaysFromEpochAsWritten(1970, 1, 1) == 0
  {
    assert ShiftedYear(1970, 1) == 1969;
    assert CDiv(1969, 400) == 4;
    assert DayOfYear(1, 1) == 306;
    assert DayOfEra(369, 306) == 369 * 365 + 92 - 3 + 306;
  }

  /** The day number of a date is that of March 1 of its shifted year plus `doy`. */
  lemma SplitAtMarch(y: int, m: int, d: int)
    ensures DaysFromEpoch(y, m, d) == DaysFromEpoch(ShiftedYear(y, m), 3, 1) + DayOfYear(m, d)
  {
    assert DayOfYear(3, 1) == 0;
  }

  /** March 1 of shifted year `q * 400 + r`: `q` whole eras, then `r` whole years
      of the era. */
  lemma MarchFirst(yp: int, q: int, r: int)
    requires yp == q * 400 + r && 0 <= r < 400
    ensures DaysFromEpoch(yp, 3, 1) == q * 146097 + DayOfEra(r, 0) - 719468
  {
    assert yp / 400 == q && yp % 400 == r;
    CorrectedByEra(yp, 3, 1);
    assert DayOfYear(3, 1) == 0;
  }

  /** Counting one more year: the multiples of `k` up to `x + 1` are one more than
      those up to `x` exactly when `k` divides `x + 1`. */
  lemma DivStep(x: int, k: int)
    requires x >= 0 && (k == 4 || k == 100)
    ensures (x + 1) / k - x / k == if (x + 1) % k == 0 then 1 else 0
  {
    var a, b := x / k, x % k;
    assert x == a * k + b && 0 <= b < k;
    if b == k - 1 {
      assert x + 1 == (a + 1) * k;
    } else {
      assert x + 1 == a * k + (b + 1);
    }
  }

  /** A March-based year is 366 days long exactly when the February it ends with
      has a 29th. */
  lemma YearLength(yp: int)
    ensures DaysFromEpoch(yp + 1, 3, 1) - DaysFromEpoch(yp, 3, 1) == if IsLeapYear(yp + 1) then 366 else 365
  {
    var q, r := yp / 400, yp % 400;
    MarchFirst(yp, q, r);
    if r < 399 {
      MarchFirst(yp + 1, q, r + 1);
      EraOffset(yp + 1, q, r + 1);
      YearOfEraLength(r + 1);
    } else {
      MarchFirst(yp + 1, q + 1, 0);
      EraOffset(yp + 1, q + 1, 0);
      assert DayOfEra(399, 0) == 145731 && DayOfEra(0, 0) == 0;
    }
  }

  /** Within an era, year `x` (from 1 to 399) ends a 366-day March-based year
      exactly when `x` is divisible by 4 but not by 100. */
  lemma YearOfEraLength(x: int)
    requires 1 <= x <= 399
    ensures DayOfEra(x, 0) - DayOfEra(x - 1, 0) == if x % 4 == 0 && x % 100 != 0 then 366 else 365
  {
    DivStep(x - 1, 4);
    DivStep(x - 1, 100);
    assert DayOfEra(x, 0) - DayOfEra(x - 1, 0) == 365 + (x / 4 - (x - 1) / 4) - (x / 100 - (x - 1) / 100);
    if x % 100 == 0 {
      assert x == 100 || x == 200 || x == 300;
    }
  }

  /** Divisibility by 4, 100 and 400 depends only on the year of the era. */
  lemma EraOffset(y: int, q: int, x: int)
    requires 0 <= x < 400 && y == q * 400 + x
    ensures y % 4 == x % 4 && y % 100 == x % 100 && y % 400 == x
  {
    ModOffset(y, q * 100, x, 4);
    ModOffset(y, q * 4, x, 100);
  }

  /** Adding whole multiples of `k` does not change the remainder modulo `k`. */
  lemma ModOffset(y: int, c: int, x: int, k: int)
    requires k == 4 || k == 100
    requires 0 <= x && y == c * k + x
    ensures y % k == x % k
  {
    if k == 4 {
      assert y == (c + x / 4) * 4 + x % 4;
    } else {
      assert y == (c + x / 100) * 100 + x % 100;
    }
  }

  /** Months that are not the year's last: the next one starts one day after the
      last day of this one, in the same shifted year. */
  lemma MonthBoundary(y: int, m: int)
    requires 1 <= m <= 11 && m != 2
    ensures ShiftedYear(y, m + 1) == ShiftedYear(y, m)
    ensures DayOfYear(m + 1, 1) == DayOfYear(m, DaysInMonth(y, m)) + 1
  {
    if m == 1 {
      assert DayOfYear(2, 1) == 337 && DayOfYear(1, 31) == 336;
    } else if m == 3 {
      assert DayOfYear(4, 1) == 31 && DayOfYear(3, 31) == 30;
    } else if m == 4 {
      assert DayOfYear(5, 1) == 61 && DayOfYear(4, 30) == 60;
    } else if m == 5 {
      assert DayOfYear(6, 1) == 92 && DayOfYear(5, 31) == 91;
    } else if m == 6 {
      assert DayOfYear(7, 1) == 122 && DayOfYear(6, 30) == 121;
    } else if m == 7 {
      assert DayOfYear(8, 1) == 153 && DayOfYear(7, 31) == 152;
    } else if m == 8 {
      assert DayOfYear(9, 1) == 184 && DayOfYear(8, 31) == 183;
    } else if m == 9 {
      assert DayOfYear(10, 1) == 214 && DayOfYear(9, 30) == 213;
    } else if m == 10 {
      assert DayOfYear(11, 1) == 245 && DayOfYear(10, 31) == 244;
    } else {
      assert DayOfYear(12, 1) == 275 && DayOfYear(11, 30) == 274;
    }
  }

  /** Consecutive calendar dates have consecutive day numbers, across month
      ends, year ends and February 28/29. */
  lemma NextDateIsNextDay(y: int, m: int, d: int)
    requires ValidDate(y, m, d)
    ensures var n := NextDate(y, m, d);
      DaysFromEpoch(n.year, n.month, n.day) == DaysFromEpoch(y, m, d) + 1
  {
    var n := NextDate(y, m, d);
    var yp, np := ShiftedYear(y, m), ShiftedYear(n.year, n.month);
    SplitAtMarch(y, m, d);
    SplitAtMarch(n.year, n.month, n.day);
    if d == DaysInMonth(y, m) && m == 2 {
      assert np == yp + 1 && DayOfYear(n.month, n.day) == 0;
      assert DayOfYear(m, d) + 1 == if IsLeapYear(y) then 366 else 365;
      YearLength(yp);
    } else {
      assert np == yp && DayOfYear(n.month, n.day) == DayOfYear(m, d) + 1 by {
        if d < DaysInMonth(y, m) {
        } else if m < 12 {
          MonthBoundary(y, m);
        } else {
          assert DayOfYear(12, 31) == 305 && DayOfYear(1, 1) == 306;
        }
      }
    }
  }

  /** The as-written version has the same property from 0000-03-01 on. */
  lemma AsWrittenNextDateIsNextDay(y: int, m: int, d: int)
    requires ValidDate(y, m, d) && ShiftedYear(y, m) >= 0
    ensures var n := NextDate(y, m, d);
      DaysFromEpochAsWritten(n.year, n.month, n.day) == DaysFromEpochAsWritten(y, m, d) + 1
  {
    var n := NextDate(y, m, d);
    NextDateIsNextDay(y, m, d);
    AsWrittenAgrees(y, m, d);
    AsWrittenAgrees(n.year, n.month, n.day);
  }

  /** The truncating era breaks the property at the first date where the shifted
      year turns negative: 0000-02-29 (year 0 is a leap year) is followed by
      0000-03-01, yet both get day number -719468. */
  lemma AsWrittenRepeatsADay()
    ensures ValidDate(0, 2, 29) && NextDate(0, 2, 29) == Date(0, 3, 1)
    ensures DaysFromEpochAsWritten(0, 2, 29) == DaysFromEpochAsWritten(0, 3, 1) == -719468
    ensures DaysFromEpoch(0, 2, 29) == -719469
  {
    assert DayOfYear(2, 29) == 365;
    assert CDiv(-1, 400) == 0 && CDiv(-1, 4) == 0 && CDiv(-1, 100) == 0;
    assert CDiv(-400, 400) == -1;
    assert DayOfEra(399, 365) == 399 * 365 + 99 - 3 + 365;
  }

  /** `struct tm` as `mkgmtime` reads it: `tm_year` counts from 1900 and
      `tm_mon` from 0; neither is required to be in range. */
  datatype Tm = Tm(sec: int, min: int, hour: int, mday: int, mon: int, year: int)

  /** The month normalisation of `mkgmtime`: a month beyond 11 carries whole
      years into the year, a negative month borrows them. The result is the pair
      (year, month 0-11) that denotes the same month. */
  function NormalizeMonth(year: int, month: int): (r: (int, int))
    ensures 0 <= r.1 <= 11
    ensures 12 * r.0 + r.1 == 12 * year + month
  {
    if month > 11 then
      (year + CDiv(month, 12), month % 12)
    else if month < 0 then
      var yearsDiff := CDiv(11 - month, 12);
      (year - yearsDiff, month + 12 * yearsDiff)
    else
      (year, month)
  }

  /** Only one (year, month 0-11) pair denotes a given month. */
  lemma NormalizedIsUnique(y1: int, m1: int, y2: int, m2: int)
    requires 0 <= m1 <= 11 && 0 <= m2 <= 11
    requires 12 * y1 + m1 == 12 * y2 + m2
    ensures y1 == y2 && m1 == m2
  {
  }

  /** `mkgmtime`, with the corrected day count: the days of the normalised date
      since 1970-01-01, times 86400, plus the hours, minutes and seconds, which
      are not normalised (out-of-range values simply add up). */
  function MkGmTime(t: Tm): (r: int)
    ensures var days := DaysFromEpoch(NormalizeMonth(t.year + 1900, t.mon).0, NormalizeMonth(t.year + 1900, t.mon).1 + 1, t.mday);
      0 <= t.hour < 24 && 0 <= t.min < 60 && 0 <= t.sec < 60 ==> 86400 * days <= r < 86400 * days + 86400
  {
    var ym := NormalizeMonth(t.year + 1900, t.mon);
    var days := DaysFromEpoch(ym.0, ym.1 + 1, t.mday);
    60 * (60 * (24 * days + t.hour) + t.min) + t.sec
  }

  /** `mkgmtime` as the firmware computes it, on the as-written day count: it agrees
      with `MkGmTime` for every normalised date from 0000-03-01 on. */
  function MkGmTimeAsWritten(t: Tm): (r: int)
    ensures var ym := NormalizeMonth(t.year + 1900, t.mon);
      ShiftedYear(ym.0, ym.1 + 1) >= 0 ==> r == MkGmTime(t)
  {
    var ym := NormalizeMonth(t.year + 1900, t.mon);
    var days := DaysFromEpochAsWritten(ym.0, ym.1 + 1, t.mday);
    60 * (60 * (24 * days + t.hour) + t.min) + t.sec
  }

  /** The seconds since the epoch: 86400 per day of the normalised date, 3600 per
      hour, 60 per minute, plus the seconds. */
  lemma MkGmTimeSplit(t: Tm)
    ensures var ym := NormalizeMonth(t.year + 1900, t.mon);
      MkGmTime(t) == 86400 * DaysFromEpoch(ym.0, ym.1 + 1, t.mday) + 3600 * t.hour + 60 * t.min + t.sec
  {
  }

  /** 1970-01-01 00:00:00 is second 0. */
  lemma MkGmTimeEpoch()
    ensures MkGmTime(Tm(0, 0, 0, 1, 0, 70)) == 0
  {
    EpochIsDayZero();
    assert NormalizeMonth(1970, 0) == (1970, 0);
  }

  /** Twelve months more is one year more, whatever the month. */
  lemma MkGmTimeMonthCarry(t: Tm)
    ensures MkGmTime(t.(mon := t.mon + 12)) == MkGmTime(t.(year := t.year + 1))
  {
    NormalizeMonthCarry(t.year + 1900, t.mon);
  }

  lemma NormalizeMonthCarry(year: int, month: int)
    ensures NormalizeMonth(year, month + 12) == NormalizeMonth(year + 1, month)
  {
    var a, b := NormalizeMonth(year, month + 12), NormalizeMonth(year + 1, month);
    NormalizedIsUnique(a.0, a.1, b.0, b.1);
  }

  /** A denormalised month gives the same instant as its normalised form. */
  lemma MkGmTimeNormalizes(t: Tm)
    ensures var ym := NormalizeMonth(t.year + 1900, t.mon);
      MkGmTime(t) == MkGmTime(t.(year := ym.0 - 1900, mon := ym.1))
  {
    var ym := NormalizeMonth(t.year + 1900, t.mon);
    NormalizeMonthIdempotent(t.year + 1900, t.mon);
  }

  lemma NormalizeMonthIdempotent(year: int, month: int)
    ensures var ym := NormalizeMonth(year, month); NormalizeMonth(ym.0, ym.1) == ym
  {
  }

  /** The seconds since the epoch split into whole days and the time of day. */
  lemma MkGmTimeTimeOfDay(t: Tm)
    ensures MkGmTime(t) == MkGmTime(t.(hour := 0, min := 0, sec := 0)) + 3600 * t.hour + 60 * t.min + t.sec
  {
    MkGmTimeSplit(t);
    MkGmTimeSplit(t.(hour := 0, min := 0, sec := 0));
  }

  /** For a normalised valid date, the next calendar day starts 86400 seconds later. */
  lemma MkGmTimeNextDay(t: Tm)
    requires 0 <= t.mon <= 11 && ValidDate(t.year + 1900, t.mon + 1, t.mday)
    ensures var n := NextDate(t.year + 1900, t.mon + 1, t.mday);
      MkGmTime(t.(year := n.year - 1900, mon := n.month - 1, mday := n.day)) == MkGmTime(t) + 86400
  {
    var y := t.year + 1900;
    var n := NextDate(y, t.mon + 1, t.mday);
    var t2 := t.(year := n.year - 1900, mon := n.month - 1, mday := n.day);
    NextDateIsNextDay(y, t.mon + 1, t.mday);
    assert NormalizeMonth(y, t.mon) == (y, t.mon);
    assert NormalizeMonth(n.year, n.month - 1) == (n.year, n.month - 1);
    MkGmTimeSplit(t);
    MkGmTimeSplit(t2);
  }
}
