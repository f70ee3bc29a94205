# ESP32 weather station: verified model of its logic

This Dafny project models the parts of the ThingPulse ESP32 touch weather
station firmware that compute something instead of drawing it:

- **Daily summaries** (`DayForecasts`, `src/util.h`). `calculateDayForecasts`
  condenses the 3-hourly OpenWeatherMap forecast list into one summary per
  local day. It resets a static array of slots, then walks the samples. It
  opens the next slot whenever the weekday changes. It keeps each day's
  minimum and maximum temperature and the condition nearest to noon. It can
  skip today's samples. The method works in place on an `array<DayForecast>`
  and is proved equal to `DayForecastsOf`, a definition by runs of equal
  weekday. The properties of the summaries are proved about that definition.
- **Calendar arithmetic** (`Calendar`, `src/util.h`). `days_from_epoch`
  (Howard Hinnant's `days_from_civil`) is modelled as written, with C's
  truncating division, and also with the floor division it needs. `mkgmtime`
  normalises the month and counts seconds since 1970-01-01.
- **Weather icons** (`WeatherIcons`, `src/main.cpp`). `getWeatherIconName`
  maps an OpenWeatherMap condition code to an icon. For today's 8xx weather
  at night it maps to the night variant.
- **Screen layout arithmetic** (`Layout`, `src/main.cpp`). This covers:
  - the moon-phase image index and the wind-rose index;
  - the day columns of `drawForecast`;
  - the padding, slot count, spacing, min/max scan and vertical scaling of the
    near-term temperature chart in `drawTodaysForecast`;
  - the sun and moon columns of `drawAstro`.

  Coordinates are `uint16_t` and wrap modulo 2^16. The astro centres are
  `uint32_t`.
- **Main loop scheduling** (`Refresh`, `src/main.cpp`). `loop()` is a class
  `Station` holding the firmware's globals. It covers:
  - the touch and display-sleep check;
  - the choice between a full repaint, a clock-only redraw and nothing;
  - the loop that advances `timeUpdate` to the next tick before the final
    `delay`.

  `millis()` readings are parameters and wrap modulo 2^32.

`CArith` holds the C conversions the model needs: wrap-around to 16 and 32
bits, the signed 32-bit view, truncating division and `round()`, which rounds
halves away from zero.

Two asymmetries of the icon mapping and of the sleep check are stated as
lemmas. Neither is treated as a defect:

- Condition codes 802 and 803 are "partly cloudy" by day but "cloudy" at
  night. Only 1801 has a partly-cloudy night icon.
- The sleep deadline `lastTouchedTime + delay` is an unsigned 32-bit sum. A
  touch shortly before the counter wraps therefore puts the display to sleep
  at once.

## Model

| member | source | states |
|---|---|---|
| DayForecasts.CalculateDayForecasts | src/util.h:27-64 | After the call the slot array is exactly `DayForecastsOf`: slot i summarises the i-th run of equal weekday among the considered samples, and every later slot holds the reset value. This holds whenever the runs fit in the array, which keeps the unchecked index `k` in range. |
| DayForecasts.ResetSlots | src/util.h:29-32 | Every slot holds the reset value {200, -200, 0, 25, day 0}, so nothing survives from the previous call in the static array. |
| DayForecasts.AddSample | src/util.h:49-61 | Adding one considered sample keeps the loop invariant. `k` is the index of the last run, `currentForecastDay` is the last considered weekday, and the slots summarise the runs so far. |
| DayForecasts.SetDay | src/util.h:49-53 | Opening a slot changes only that slot's `day` field. |
| DayForecasts.AbsorbInto | src/util.h:55-61 | Absorbing a sample changes only slot k, which becomes `Absorb` of its old value and the sample. |
| DayForecasts.ConsiderSample | src/util.h:36-61 | One iteration of the sample loop: a skipped or considered sample keeps the slot array equal to the summaries of the runs of the samples considered so far, with `k` the index of the last run. |
| DayForecasts.Summarize | src/util.h:49-61 | The summary of a run carries the weekday of the run's first sample, the one that opened the slot. |
| DayForecasts.Absorb | src/util.h:55-61 | The new minimum is at most both the old minimum and the sample's temperature, and equals one of them; the same holds for the maximum. The kept hour is no farther from noon than either. The day is unchanged. |
| DayForecasts.SkippedSampleContributesNothing | src/util.h:41-47 | With skipping on, appending a sample from today leaves every slot as it was. |
| DayForecasts.ConsideredSkips | src/util.h:41-47 | With skipping on, no considered sample is from today. |
| DayForecasts.ConsideredAll | src/util.h:41-47 | With skipping off, every sample is considered, in input order. |
| DayForecasts.Considered | src/util.h:36-47 | Skipping only removes samples: the considered samples are never more than the input. |
| DayForecasts.Runs | src/util.h:49-53 | There are no more runs than samples, no runs exactly when there are no samples, and no run is empty, so every opened slot receives at least one sample. |
| DayForecasts.NoSlotForToday | src/util.h:41-53 | With skipping on, no filled slot carries today's weekday. |
| DayForecasts.SlotsAppend | src/util.h:49-61 | A sample updates exactly one slot, at an index below the array length. A newly opened slot still held the reset value. |
| DayForecasts.RunCountOfPrefix | src/util.h:36-53 | The number of slots in use never decreases along the loop, so the bound on the final run count bounds every intermediate `k`. |
| DayForecasts.RunsFlatten | src/util.h:36-53 | Concatenating the runs gives back the considered samples, so slots are filled in input order and no sample is lost or repeated. |
| DayForecasts.RunsUniform | src/util.h:49-53 | All samples of a run share the weekday of its first sample. |
| DayForecasts.RunsAlternate | src/util.h:49-53 | Consecutive runs have different weekdays, so a new slot is opened exactly at each weekday change. |
| DayForecasts.SummaryTemperatures | src/util.h:31-56 | A slot's minimum is at most, and its maximum at least, every temperature of its run. Each is a temperature of the run unless it is still the reset value. Hence minTemp ≤ maxTemp. |
| DayForecasts.ExactExtremes | src/util.h:55-56 | With temperatures strictly between -200 and 200, minTemp and maxTemp are exactly the least and greatest temperatures of the run. |
| DayForecasts.SummaryCondition | src/util.h:31-61 | The kept condition code and hour are those of the earliest sample of the run whose hour is nearest to noon. Ties go to the earlier sample because the comparison is strict. |
| DayForecasts.DayForecastsShape | src/util.h:29-64 | There are exactly n slots. Each filled slot carries its run's weekday and has minTemp ≤ maxTemp. Every slot beyond the runs keeps the reset value. |
| DayForecasts.TwoDayExample | src/util.h:27-64 | Worked example: two Monday samples and one Tuesday sample give Monday 10..18 with the 14 h condition and Tuesday 5..5. |
| Calendar.EpochIsDayZero | src/util.h:136-143 | 1970-01-01 is day 0, both as written and corrected. |
| Calendar.DaysFromEpochAsWritten | src/util.h:136-143 | The firmware's truncating computation agrees with the corrected count whenever the March-shifted year is not negative. |
| Calendar.DaysFromEpoch | src/util.h:136-143 | For a valid date, the day number lies within the 146097-day window of its floor 400-year era, counted from 1970-01-01. |
| Calendar.DayOfYearRange | src/util.h:140 | The day of the March-based year lies in [0, 365] for every valid date. |
| Calendar.DayOfEraRange | src/util.h:141 | For a year of the era in [0, 399] and a day of the year in [0, 365], the day of the 400-year era lies in [0, 146096]. The as-written era can give a negative year of the era, and then this range does not hold (see Findings). |
| Calendar.CorrectedRanges | src/util.h:138-141 | With the floor era, year-of-era is in [0, 399] and day-of-era in [0, 146096] for every valid date, negative years included. |
| Calendar.EraIsFloor | src/util.h:138 | Hinnant's `(y >= 0 ? y : y - 399) / 400` in truncating arithmetic is the floor of y / 400. |
| Calendar.AsWrittenAgrees | src/util.h:136-143 | The as-written function equals the corrected one whenever the March-shifted year is not negative. |
| Calendar.YearLength | src/util.h:136-143 | Consecutive March-firsts are 365 days apart, or 366 when the following year is a leap year. |
| Calendar.NextDateIsNextDay | src/util.h:135-143 | The corrected day count of the next calendar date is exactly one more, across month ends, year ends and February 28/29. |
| Calendar.AsWrittenNextDateIsNextDay | src/util.h:136-143 | The as-written function has the same property from 0000-03-01 on. |
| Calendar.AsWrittenRepeatsADay | src/util.h:136-143 | 0000-02-29 and its successor 0000-03-01 both get day −719468 as written; the corrected count gives −719469 to the first. |
| Calendar.NormalizeMonth | src/util.h:147-156 | The normalised month lies in 0..11, and 12 · year + month is preserved. |
| Calendar.NormalizedIsUnique | src/util.h:147-156 | Only one (year, month 0..11) pair denotes a given month, so the normalisation is the unique one. |
| Calendar.NormalizeMonthIdempotent | src/util.h:147-156 | Normalising a normalised month changes nothing. |
| Calendar.MkGmTime | src/util.h:146-160 | For an in-range time of day the result lies in the 86400-second window of its normalised date's day number. |
| Calendar.MkGmTimeAsWritten | src/util.h:146-160 | On the firmware's as-written day count, `mkgmtime` agrees with the corrected model for every normalised date from 0000-03-01 on. |
| Calendar.MkGmTimeEpoch | src/util.h:146-160 | 1970-01-01 00:00:00 maps to 0. |
| Calendar.MkGmTimeMonthCarry | src/util.h:147-159 | Twelve more months give the same instant as one more year. |
| Calendar.MkGmTimeNormalizes | src/util.h:147-159 | A denormalised month gives the same instant as its normalised form. |
| Calendar.MkGmTimeTimeOfDay | src/util.h:159 | The result is the start of the day plus the time of day in seconds. |
| Calendar.MkGmTimeNextDay | src/util.h:146-160 | The next calendar date starts exactly 86400 seconds later. |
| WeatherIcons.WeatherIconName | src/main.cpp:404-432 | Outside "today" the icon depends on the code alone. |
| WeatherIcons.NightShifted | src/main.cpp:408-412 | Codes outside 800..899 are never shifted; a code in 800..899 either stays or becomes code + 1000. |
| WeatherIcons.IconOfCode | src/main.cpp:414-431 | The clear-night icon is chosen exactly for 1800 and the partly-cloudy-night icon exactly for 1801. |
| WeatherIcons.IconOfCodeDenotes | src/main.cpp:414-431 | The rule chain picks an icon exactly when the code lies in that icon's group, in both directions. This covers the precedence (511 → sleet, 500 → light rain, 504 → extreme rain, 611-616 → sleet, 801-803 → partly cloudy, 1800/1801/1802-1899). Every 16-bit code gets exactly one icon, "unknown" exactly for the codes no group claims. |
| WeatherIcons.NightShiftOnlyForTodaysClouds | src/main.cpp:408-412 | The code changes exactly when it is today's weather, in 800..899 and at night. It then becomes code + 1000, without 16-bit wrap. |
| WeatherIcons.TodayAtNightUsesNightVariant | src/main.cpp:408-429 | Today's 8xx weather at night shows the night variant of its day icon: clear night for 800, partly cloudy night for 801, cloudy for 804-899. The exceptions are 802 and 803, which are partly cloudy by day and cloudy at night. |
| WeatherIcons.DaytimeUsesDayIcon | src/main.cpp:408-431 | Except for today's 8xx weather at night, the icon is that of the code itself. |
| WeatherIcons.ForecastsNeverShowNightIcons | src/main.cpp:408-431 | The day forecasts, which pass `today` false, never get a night icon for an OpenWeatherMap code. |
| WeatherIcons.FileNamesDistinct | src/main.cpp:414-431 | Different icons have different file names. |
| Layout.MoonImageIndex | src/main.cpp:183 | For a rounded value r in [0, N] the index is min(r, N−1): a full month is clamped to the last image, not wrapped. It lies in [0, N−1] and differs from r exactly when r = N. |
| Layout.MoonImageOfAge | src/main.cpp:182-183 | For a moon age within the lunar month, the index is a valid image in [0, N−1] whose phase is within half an image of age · N / LUNAR_MONTH, except in the last half image before a full month, which shows image N−1. A full lunar month shows image N−1. |
| Layout.WindAngleIndex | src/main.cpp:217-219 | For a rounded value in [0, 8] the index lies in [0, 7] and equals the value modulo 8, so 8 wraps to north. Values up to 7 are unchanged. |
| Layout.WindIndexOfDegrees | src/main.cpp:216-219 | For a wind direction in [0°, 360°] the index lies in [0, 7] and names a compass point within 22.5° of the direction. |
| Layout.DayColumns | src/main.cpp:316-328 | The day layout fails exactly when the 16-bit width is below 70 (the division by zero), and otherwise shows between 1 and the number of day forecasts. |
| Layout.DayColumnsFit | src/main.cpp:316-328 | The day columns exist exactly when the 16-bit width is at least 70; otherwise the firmware divides by zero. Then 1 ≤ count ≤ the number of day forecasts, 70 · count ≤ width, the half width is at least 35, and the columns fit in the width. The count is the largest that fits: either every day forecast is shown or one more 70-pixel column would not fit. |
| Layout.DayColumnCentres | src/main.cpp:328-330 | The column centres are evenly spaced by twice the half width. They lie strictly between `left` and `left + width`, and below `right` when the section does not wrap. |
| Layout.SlotsFit | src/main.cpp:279 | The chart's slot count is at most the number of close forecasts, and that many labels fit side by side in the width. It is the largest such count: either every close forecast is shown or one more label would not fit. |
| Layout.TodaysChart | src/main.cpp:269-280 | When the chart is drawable, the slot count is between 0 and the number of close forecasts and never 1, and with two or more slots the spacing is not negative. |
| Layout.ChartSlots | src/main.cpp:269-280 | The chart fails (division by zero) exactly when one slot fits. Otherwise it shows at most the number of close forecasts, and their labels fit in the padded width. |
| Layout.ChartPadding | src/main.cpp:269-273 | A section at least 20 pixels wide loses exactly 10 pixels on each side. Any narrower section gets a wrapped 16-bit width larger than the section. |
| Layout.ChartPositions | src/main.cpp:280-296 | With two or more slots the x positions increase strictly from `left`. The last is at most `left + width`, and at most `right` when the padded section does not wrap. |
| Layout.ScanTemperatures | src/main.cpp:281-287 | Over the first n temperatures, the scanned minimum is at most and the maximum at least each of them. Each is one of them or its start value (1000 for the minimum, −1000 for the maximum). For n > 0, min ≤ max. |
| Layout.FactorY | src/main.cpp:288 | The factor is positive. When max > min it scales the temperature range to exactly 39 pixels (height − 11); otherwise it is 1. |
| Layout.PointY | src/main.cpp:293-297 | A point at the scanned minimum temperature is drawn on the bottom row, top + 49. |
| Layout.PointsInsideBand | src/main.cpp:288-297 | For every temperature within the scanned range, the scaled offset lies in [0, 39] and the point's y lies in [top + 10, top + 49]. The minimum is drawn at the bottom row and, when the range is not degenerate, the maximum at top + 10. |
| Layout.AstroMirror | src/main.cpp:150-162 | The sun and moon column centres are mirror images about the section's middle: their offsets from `left` add up to the width, modulo 2^32. |
| Layout.AstroLayout | src/main.cpp:150-162 | When the section does not wrap, its centre is `left` plus half the width, rounded down. |
| Layout.AstroColumnsApart | src/main.cpp:150-184 | In a section at least 74 pixels wide nothing wraps. The sun column is centred between `left` and the moon image's left edge, and the moon column lies right of the image and inside the section. The centres add up to left + right. |
| Layout.AstroNarrowWraps | src/main.cpp:159-161 | The truncated sun offset is negative exactly when the width is below 72. Then it lies in [−18, −1], and the unsigned sun centre wraps to 2^32 plus that offset from `left`. |
| Refresh.ElapsedAcrossWrap | src/main.cpp:120 | The unsigned difference of two counter readings is the true elapsed time when that is below 2^32 ms, even across a wrap. |
| Refresh.ShouldRepaint | src/main.cpp:118-120 | Once synchronised and updated, a pass at the very reading of the last update does not repaint. |
| Refresh.Plan | src/main.cpp:113-124 | Nothing is drawn exactly when the display sleeps, and a full repaint happens exactly when the display is awake and the repaint condition holds; otherwise only the clock is redrawn. |
| Refresh.RepaintWhenDue | src/main.cpp:118-124 | Once synchronised and updated, a pass repaints exactly when more than the update interval has passed since the last update, across a counter wrap as well. |
| Refresh.RepaintUntilReady | src/main.cpp:113-124 | Before the first sync or the first update every awake pass repaints, and a sleeping display draws nothing. |
| Refresh.TouchStep | src/main.cpp:99-110 | A touch leaves the display awake and records the reading. Without a touch the last-touch time is kept and the display can only stay awake or fall asleep. |
| Refresh.SleepAfterTimeout | src/main.cpp:106-110 | Away from the counter wrap, an untouched awake display goes to sleep exactly when more than the timeout has passed since the last touch. |
| Refresh.SleepDeadlineWraps | src/main.cpp:106-107 | Example: a display touched 16 ms before the counter wraps, with a 30 s timeout, goes to sleep 1 ms later, because the deadline sum wraps. |
| Refresh.CatchUpAsWritten | src/main.cpp:127-130 | When the as-written loop ends within its bound of rounds, `timeUpdate` is strictly greater than the reading. |
| Refresh.AsWrittenCatchUpHangs | src/main.cpp:127-130 | As written, the catch-up loop never finishes, for any number of rounds, when the counter reads 0xFFFFFFFF. |
| Refresh.AsWrittenWaitsAfterWrap | src/main.cpp:127-131 | As written, after the counter wraps with `timeUpdate` still just below 2^32, the loop runs no round. The next `delay` is then 0xFFFFF448 ms, about 49.7 days. |
| Refresh.AsWrittenCatchUpAgrees | src/main.cpp:127-130 | Without wrap, the as-written loop ends after exactly k + 1 tests at start + k · dly, the first tick past the reading. |
| Refresh.CatchUpAgreesWithoutWrap | src/main.cpp:126-130 | Where neither the ticks nor the distance to the reading wrap, the corrected catch-up ends at the same `timeUpdate` as the as-written loop. |
| Refresh.CatchUpStep | src/main.cpp:128-129 | One round of the corrected loop keeps its invariant: `timeUpdate` is the start plus a whole number of steps, and the signed distance to the reading shrinks by exactly one step. |
| Refresh.Station.constructor | src/main.cpp:36-89 | Start-up state: interval in milliseconds, nothing updated yet, display awake, next tick and last touch at the start reading. |
| Refresh.Station.CatchUp | src/main.cpp:126-130 | Corrected catch-up. `timeUpdate` becomes the start plus a whole number of steps, modulo 2^32, and ends strictly ahead of the reading. It ends at most one step ahead when it had to move, and does not move when it was already ahead. No other state changes. |
| Refresh.Station.Loop | src/main.cpp:92-131 | One pass: the display and last-touch state follow the touch check, and the drawing follows the repaint decision: a full repaint exactly when the display is awake after the touch check and the repaint condition holds. `lastUpdateMillis` changes only on a repaint. `timeUpdate` stays on its tick grid: it moves by a whole number of loop delays (1000 ms awake, 50 ms asleep). The final delay is positive, and at most one loop delay when the tick had been reached. |

## Left out

- The constants of `settings.h` (`NUMBER_OF_FORECASTS`, `NUMBER_OF_DAY_FORECASTS`, `NUMBER_OF_CLOSE_FORECASTS`, `NUMBER_OF_MOON_IMAGES`, `LUNAR_MONTH`, `UPDATE_INTERVAL_MINUTES`, `TFT_SLEEP_DELAY_SECONDS`, `SKIP_TODAYS_FORECAST`) are parameters. `settings.h` is not part of this model.
- `display.h` is not part of this model. `isTftAwake`, `tftSleepIn` and `tftSleepOut` are the `awake` field of `Station`.
- `localtime`, `gmtime`, `getLocalTime`, SNTP, `syncTime`, `initTime`, `setTimezone` and the timestamp helpers are left out. Each sample's local weekday and hour, the current weekday, and the sync time are inputs.
- All drawing, fonts, bitmaps, sprites, the JPEG decoder, `drawProgress`, `drawTimeAndDate` and the separators are left out; only the coordinates they receive are modelled. `ofr.getTextWidth` is a positive input.
- `updateData`, the OpenWeatherMap clients, WiFi (`src/connectivity.h`) and `SunMoonCalc` are network or library code. The moon age and the sunrise and sunset times are inputs.
- `delay()` itself and the passage of time are left out. `Refresh.Station.Loop` returns the delay it would wait, and every `millis()` reading is a parameter.
- `setup()`, logging, memory statistics and the `#if 0` block are left out.
- Floating point: temperatures, moon age and wind direction are `real`. Single-precision rounding, `String(x, 0)` formatting and the km/h conversion are not modelled. `round()` is exact rounding with halves away from zero.
- Layout.MoonImageOfAge: the product `age * N / LUNAR_MONTH` is exact real arithmetic, not `double`.
- Layout.WindIndexOfDegrees: `windDeg * 8 / 360` is exact real arithmetic, not `float`.
- Layout.PointsInsideBand: the `(int32_t)` cast of the rounded offset and `float` rounding of the factor are not modelled; the offset is exact.
- Calendar.MkGmTime: the result is an unbounded integer. On the ESP32 `long` is 32 bits, so `60 * (60 * (24L * days + hour) + min) + sec` overflows from 2038-01-19 03:14:08 UTC on, and `drawAstro` calls `mkgmtime` with the current time. The model does not bound this arithmetic, nor the `int` arithmetic of `days_from_epoch`.
- Calendar.MkGmTimeNextDay: `mkgmtime` is modelled on the corrected day count, so the next-day property does not hold as written before 0000-03-01 (see Findings). From that date on the two agree (`Calendar.MkGmTimeAsWritten`).
- DayForecasts.CalculateDayForecasts: the model requires weekday 0..6 and hour 0..23, as `localtime` guarantees. It also requires that the runs fit in the array, because the firmware does not check `k`.
- Refresh.Station.CatchUp: it compares by the signed 32-bit difference rather than `timeUpdate <= currentMillis` (see Findings). The as-written loop is `Refresh.CatchUpAsWritten`.
- Refresh.Station.Loop: the firmware reads `millis()` inside `repaint()` and again before the catch-up loop. These readings are parameters here, not later values of one clock. The pass uses the corrected catch-up; it ends where the as-written loop does whenever nothing wraps (`Refresh.CatchUpAgreesWithoutWrap`).
- Refresh.Station.Loop: the model assumes `TFT_SLEEP_DELAY_SECONDS` is defined. Without it the firmware skips the touch check and assigns `dly` only on the awake path, so a sleeping display would reach the catch-up loop with `dly` uninitialised.
- Refresh.Station.Loop: the touch check keeps the firmware's 32-bit deadline sum `lastTouchedTime + TFT_SLEEP_DELAY_SECONDS * 1000`. Near the counter wrap the sum becomes small and the display sleeps almost at once after a touch (`Refresh.SleepDeadlineWraps`); `Refresh.SleepAfterTimeout` holds only away from the wrap.

## Findings

| source | as written | input that shows it | evidently intended | confidence | as-written member | corrected member |
|---|---|---|---|---|---|---|
| src/util.h:138 | `era = y / 400` truncates toward zero, so every shifted year in [−399, −1] is put in era 0 with a negative year-of-era, outside the [0, 399] the comment states | 0000-02-29 and 0000-03-01 both give −719468 | Hinnant's `(y >= 0 ? y : y - 399) / 400`: consecutive dates have consecutive day numbers for every year | not executed | Calendar.AsWrittenRepeatsADay | Calendar.NextDateIsNextDay |
| src/main.cpp:128-130 | `while (timeUpdate <= currentMillis) timeUpdate += dly;` compares wrapping 32-bit `unsigned long` values | currentMillis = 0xFFFFFFFF never ends the loop. After a wrap with timeUpdate = 0xFFFFFF38 and currentMillis = 2800 the loop does not run, and `delay` gets 0xFFFFF448 ms | advance to the first tick after the reading, comparing the signed difference, so the wait is at most one loop delay | not executed | Refresh.AsWrittenCatchUpHangs | Refresh.Station.CatchUp |
