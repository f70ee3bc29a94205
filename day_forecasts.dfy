/** The condensation of the 3-hourly forecast list into one summary per local
    day (`calculateDayForecasts`, src/util.h). The firmware keeps the summaries in a
    static array that every call resets and then fills in place; the method below
    does the same on an `array<DayForecast>` and is proved against
    `DayForecastsOf`, a definition by runs of equal weekday. */
module DayForecasts {

  /** One forecast sample as the aggregation reads it. `weekday` and `hour` are the
      local `tm_wday` and `tm_hour` of the sample's observation time (the conversion
      from UTC is done by the C library and is an input here). */
  datatype Sample = Sample(weekday: int, hour: int, temp: real, weatherId: int)

  /** A per-day summary slot, in the field order of the initializer {200.0, -200.0, 0, 25}. */
  datatype DayForecast = DayForecast(minTemp: real, maxTemp: real, conditionCode: int, conditionHour: int, day: int)

  /** What every slot is reset to; `day`, missing from the initializer, is value-initialised to 0. */
  const Sentinel := DayForecast(200.0, -200.0, 0, 25, 0)

  /** What `localtime` guarantees of `tm_wday` and `tm_hour`. */
  predicate ValidSample(s: Sample) {
    0 <= s.weekday <= 6 && 0 <= s.hour <= 23
  }

  predicate ValidSamples(xs: seq<Sample>) {
    forall i :: 0 <= i < |xs| ==> ValidSample(xs[i])
  }

  /** `abs(12 - hour)` */
  function NoonDistance(hour: int): nat {
    if hour <= 12 then 12 - hour else hour - 12
  }

  /** A new slot for weekday `day`: the reset value with its `day` set. */
  function Opened(day: int): (r: DayForecast)
    ensures r.day == day && r.conditionHour == 25
  {
    Sentinel.(day := day)
  }

  /** One sample folded into the slot of its day: running minimum, running maximum,
      and the condition of the sample strictly nearer to noon than the one kept. */
  function Absorb(d: DayForecast, s: Sample): (r: DayForecast)
    ensures r.day == d.day
    ensures r.minTemp <= d.minTemp && r.minTemp <= s.temp && (r.minTemp == d.minTemp || r.minTemp == s.temp)
    ensures r.maxTemp >= d.maxTemp && r.maxTemp >= s.temp && (r.maxTemp == d.maxTemp || r.maxTemp == s.temp)
    ensures NoonDistance(r.conditionHour) <= NoonDistance(d.conditionHour)
    ensures NoonDistance(r.conditionHour) <= NoonDistance(s.hour)
  {
    var a := if s.temp < d.minTemp then d.(minTemp := s.temp) else d;
    var b := if s.temp > a.maxTemp then a.(maxTemp := s.temp) else a;
    if NoonDistance(s.hour) < NoonDistance(b.conditionHour) then
      b.(conditionCode := s.weatherId, conditionHour := s.hour)
    else
      b
  }

  /** The slot of one run of same-weekday samples: opened for the run's weekday,
      then every sample of the run absorbed in order. */
  function Summarize(run: seq<Sample>): (r: DayForecast)
    requires run != []
    ensures r.day == run[0].weekday
  {
    if |run| == 1 then Absorb(Opened(run[0].weekday), run[0])
    else Absorb(Summarize(run[..|run| - 1]), run[|run| - 1])
  }

  /** The samples the loop does not skip: all of them, or, with the skip-today
      option, those whose weekday differs from today's. */
  function Considered(xs: seq<Sample>, today: int, skipToday: bool): (r: seq<Sample>)
    ensures |r| <= |xs|
  {
    if xs == [] then []
    else
      var prev := Considered(xs[..|xs| - 1], today, skipToday);
      var s := xs[|xs| - 1];
      if skipToday && s.weekday == today then prev else prev + [s]
  }

  /** The maximal runs of consecutive samples that share a weekday, in order. */
  function Runs(xs: seq<Sample>): (r: seq<seq<Sample>>)
    ensures |r| <= |xs| && (r == [] <==> xs == [])
    ensures forall i :: 0 <= i < |r| ==> r[i] != []
  {
    if xs == [] then []
    else
      var prev := Runs(xs[..|xs| - 1]);
      var s := xs[|xs| - 1];
      if |xs| == 1 || xs[|xs| - 2].weekday != s.weekday then prev + [[s]]
      else prev[..|prev| - 1] + [prev[|prev| - 1] + [s]]
  }

  /** The slots after a call: the summary of each run of considered samples, in
      order, and the reset value in every slot no run reaches. */
  function DayForecastsOf(xs: seq<Sample>, today: int, skipToday: bool, n: nat): (r: seq<DayForecast>)
    ensures |r| == n
  {
    SlotsOfRuns(Runs(Considered(xs, today, skipToday)), n)
  }

  /** `n` slots holding the summaries of `runs`, then reset values. */
  function SlotsOfRuns(runs: seq<seq<Sample>>, n: nat): (r: seq<DayForecast>)
    requires forall i :: 0 <= i < |runs| ==> runs[i] != []
    ensures |r| == n
  {
    seq(n, i requires 0 <= i < n => if i < |runs| then Summarize(runs[i]) else Sentinel)
  }

  /** `calculateDayForecasts`: reset every slot, then walk the samples, opening the
      next slot whenever a considered sample's weekday differs from the previous
      considered one's, and absorbing the sample into the current slot. The index
      `k` is never checked in the firmware; the second precondition (the runs of
      weekdays fit in the array) is what keeps every access in range. */
  method CalculateDayForecasts(forecasts: seq<Sample>, today: int, skipToday: bool, dayForecasts: array<DayForecast>)
    requires ValidSamples(forecasts)
    requires |Runs(Considered(forecasts, today, skipToday))| <= dayForecasts.Length
    modifies dayForecasts
    ensures dayForecasts[..] == DayForecastsOf(forecasts, today, skipToday, dayForecasts.Length)
  {
    var n := dayForecasts.Length;
    ResetSlots(dayForecasts);
    assert forecasts[..0] == [];
    var k := -1;
    var currentForecastDay := -1;
    ghost var considered: seq<Sample> := [];
    for i := 0 to |forecasts|
      invariant considered == Considered(forecasts[..i], today, skipToday)
      invariant Tracks(dayForecasts[..], k, currentForecastDay, considered)
    {
      k, currentForecastDay, considered := ConsiderSample(forecasts, i, today, skipToday, dayForecasts, k, currentForecastDay, considered);
    }
    assert forecasts[..|forecasts|] == forecasts;
  }

  /** One iteration of the loop over the samples: skip the sample when it is
      today's and skipping is on, otherwise add it to the slots. */
  method ConsiderSample(forecasts: seq<Sample>, i: nat, today: int, skipToday: bool, dayForecasts: array<DayForecast>,
                        k: int, currentForecastDay: int, ghost considered: seq<Sample>)
    returns (k': int, currentForecastDay': int, ghost considered': seq<Sample>)
    requires i < |forecasts| && ValidSample(forecasts[i])
    requires |Runs(Considered(forecasts, today, skipToday))| <= dayForecasts.Length
    requires considered == Considered(forecasts[..i], today, skipToday)
    requires Tracks(dayForecasts[..], k, currentForecastDay, considered)
    modifies dayForecasts
    ensures considered' == Considered(forecasts[..i + 1], today, skipToday)
    ensures Tracks(dayForecasts[..], k', currentForecastDay', considered')
  {
    var forecast := forecasts[i];
    ConsideredPrefixStep(forecasts, i, today, skipToday);
    if skipToday && today == forecast.weekday {
      return k, currentForecastDay, considered;
    }
    RunCountOfPrefix(forecasts, today, skipToday, i + 1);
    k', currentForecastDay' := AddSample(dayForecasts, k, currentForecastDay, considered, forecast);
    considered' := considered + [forecast];
  }

  /** The loop's state after the considered samples `c`: `k` indexes the last
      opened slot, `current` is the weekday of the last considered sample, and the
      slots hold the summaries of the runs of `c` so far. */
  predicate Tracks(slots: seq<DayForecast>, k: int, current: int, c: seq<Sample>) {
    k == |Runs(c)| - 1 && current == LastWeekday(c) && slots == SlotsOfRuns(Runs(c), |slots|)
  }

  /** Lines 30-32: every slot back to the reset value, so nothing survives from
      the previous call in the static array. */
  method ResetSlots(dayForecasts: array<DayForecast>)
    modifies dayForecasts
    ensures dayForecasts[..] == SlotsOfRuns([], dayForecasts.Length)
  {
    for i := 0 to dayForecasts.Length
      invariant forall j :: 0 <= j < i ==> dayForecasts[j] == Sentinel
    {
      dayForecasts[i] := Sentinel;
    }
  }

  /** Lines 49-61 for one considered sample: open the next slot when the weekday
      changes, then absorb the sample into the current slot. */
  method AddSample(dayForecasts: array<DayForecast>, k: int, currentForecastDay: int,
                   ghost considered: seq<Sample>, forecast: Sample)
    returns (k': int, currentForecastDay': int)
    requires ValidSample(forecast)
    requires Tracks(dayForecasts[..], k, currentForecastDay, considered)
    requires |Runs(considered + [forecast])| <= dayForecasts.Length
    modifies dayForecasts
    ensures Tracks(dayForecasts[..], k', currentForecastDay', considered + [forecast])
  {
    k', currentForecastDay' := k, currentForecastDay;
    SlotsAppend(considered, forecast, dayForecasts.Length);
    RunsAppend(considered, forecast);
    if forecast.weekday != currentForecastDay' {
      currentForecastDay' := forecast.weekday;
      k' := k' + 1;
      SetDay(dayForecasts, k', currentForecastDay');
    }
    AbsorbInto(dayForecasts, k', forecast);
  }

  /** Line 52: the newly opened slot `k` records its weekday. */
  method SetDay(dayForecasts: array<DayForecast>, k: int, day: int)
    requires 0 <= k < dayForecasts.Length
    modifies dayForecasts
    ensures dayForecasts[..] == old(dayForecasts[..])[k := old(dayForecasts[k]).(day := day)]
  {
    dayForecasts[k] := dayForecasts[k].(day := day);
  }

  /** Lines 55-61 on slot `k`: the sample absorbed into the slot in place. */
  method AbsorbInto(dayForecasts: array<DayForecast>, k: int, forecast: Sample)
    requires 0 <= k < dayForecasts.Length
    modifies dayForecasts
    ensures dayForecasts[..] == old(dayForecasts[..])[k := Absorb(old(dayForecasts[k]), forecast)]
  {
    if forecast.temp < dayForecasts[k].minTemp {
      dayForecasts[k] := dayForecasts[k].(minTemp := forecast.temp);
    }
    if forecast.temp > dayForecasts[k].maxTemp {
      dayForecasts[k] := dayForecasts[k].(maxTemp := forecast.temp);
    }
    if NoonDistance(forecast.hour) < NoonDistance(dayForecasts[k].conditionHour) {
      dayForecasts[k] := dayForecasts[k].(conditionCode := forecast.weatherId);
      dayForecasts[k] := dayForecasts[k].(conditionHour := forecast.hour);
    }
  }

  /** The weekday of the last considered sample, -1 (the initial
      `currentForecastDay`) when there is none. */
  function LastWeekday(c: seq<Sample>): int {
    if c == [] then -1 else c[|c| - 1].weekday
  }

  /** The loop's filter, one sample at a time. */
  lemma ConsideredAppend(xs: seq<Sample>, s: Sample, today: int, skipToday: bool)
    ensures Considered(xs + [s], today, skipToday)
         == if skipToday && s.weekday == today then Considered(xs, today, skipToday)
            else Considered(xs, today, skipToday) + [s]
  {
    assert (xs + [s])[..|xs|] == xs;
  }

  /** The loop's filter over the first `i + 1` samples. */
  lemma ConsideredPrefixStep(xs: seq<Sample>, i: nat, today: int, skipToday: bool)
    requires i < |xs|
    ensures Considered(xs[..i + 1], today, skipToday)
         == if skipToday && xs[i].weekday == today then Considered(xs[..i], today, skipToday)
            else Considered(xs[..i], today, skipToday) + [xs[i]]
  {
    assert xs[..i + 1] == xs[..i] + [xs[i]];
    ConsideredAppend(xs[..i], xs[i], today, skipToday);
  }

  /** A sample skipped as today's leaves every slot as it was. */
  lemma SkippedSampleContributesNothing(xs: seq<Sample>, s: Sample, today: int, n: nat)
    requires s.weekday == today
    ensures DayForecastsOf(xs + [s], today, true, n) == DayForecastsOf(xs, today, true, n)
  {
    ConsideredAppend(xs, s, today, true);
  }

  /** Appending a sample to a run list: a new run when the weekday changes,
      otherwise the last run grows. */
  lemma RunsAppend(c: seq<Sample>, s: Sample)
    ensures var r := Runs(c);
      if c == [] || c[|c| - 1].weekday != s.weekday then Runs(c + [s]) == r + [[s]]
      else Runs(c + [s]) == r[..|r| - 1] + [r[|r| - 1] + [s]]
  {
    assert (c + [s])[..|c|] == c;
  }

  /** A new run fills the first slot still holding the reset value. */
  lemma SlotsOfNewRun(runs: seq<seq<Sample>>, s: Sample, n: nat)
    requires forall i :: 0 <= i < |runs| ==> runs[i] != []
    requires |runs| < n
    ensures SlotsOfRuns(runs, n)[|runs|] == Sentinel
    ensures SlotsOfRuns(runs + [[s]], n) == SlotsOfRuns(runs, n)[|runs| := Absorb(Opened(s.weekday), s)]
  {
    var a, b := SlotsOfRuns(runs + [[s]], n), SlotsOfRuns(runs, n)[|runs| := Absorb(Opened(s.weekday), s)];
    forall i | 0 <= i < n ensures a[i] == b[i] {
      if i < |runs| {
        assert (runs + [[s]])[i] == runs[i];
      }
    }
  }

  /** A sample that extends the last run is absorbed into that run's slot. */
  lemma SlotsOfLongerRun(runs: seq<seq<Sample>>, s: Sample, n: nat)
    requires forall i :: 0 <= i < |runs| ==> runs[i] != []
    requires 0 < |runs| <= n
    ensures var m := |runs| - 1;
      SlotsOfRuns(runs[..m] + [runs[m] + [s]], n) == SlotsOfRuns(runs, n)[m := Absorb(SlotsOfRuns(runs, n)[m], s)]
  {
    var m := |runs| - 1;
    var longer := runs[..m] + [runs[m] + [s]];
    assert (runs[m] + [s])[..|runs[m]|] == runs[m];
    assert Summarize(runs[m] + [s]) == Absorb(Summarize(runs[m]), s);
    var a, b := SlotsOfRuns(longer, n), SlotsOfRuns(runs, n)[m := Absorb(SlotsOfRuns(runs, n)[m], s)];
    forall i | 0 <= i < n ensures a[i] == b[i] {
      if i < m {
        assert longer[i] == runs[i];
      }
    }
  }

  /** Whether a considered sample `s` after the considered samples `c` opens a new slot. */
  predicate OpensSlot(c: seq<Sample>, s: Sample) {
    c == [] || c[|c| - 1].weekday != s.weekday
  }

  /** The index of the slot that `s` goes into after the considered samples `c`. */
  function SlotIndex(c: seq<Sample>, s: Sample): int {
    if OpensSlot(c, s) then |Runs(c)| else |Runs(c)| - 1
  }

  /** A considered sample changes exactly one slot: the next free one when its
      weekday differs from the previous considered sample's, the current one
      otherwise; that slot becomes the sample absorbed into it. */
  lemma SlotsAppend(c: seq<Sample>, s: Sample, n: nat)
    requires |Runs(c + [s])| <= n
    ensures 0 <= SlotIndex(c, s) < n
    ensures OpensSlot(c, s) ==> SlotsOfRuns(Runs(c), n)[SlotIndex(c, s)] == Sentinel
    ensures var k := SlotIndex(c, s);
      var before := SlotsOfRuns(Runs(c), n);
      SlotsOfRuns(Runs(c + [s]), n)
      == before[k := Absorb(if OpensSlot(c, s) then Opened(s.weekday) else before[k], s)]
  {
    RunsAppend(c, s);
    var r := Runs(c);
    if OpensSlot(c, s) {
      SlotsOfNewRun(r, s, n);
    } else {
      SlotsOfLongerRun(r, s, n);
    }
  }

  /** Considering a sample never lowers the number of runs. */
  lemma RunCountGrows(c: seq<Sample>, s: Sample)
    ensures |Runs(c)| <= |Runs(c + [s])| <= |Runs(c)| + 1
  {
    RunsAppend(c, s);
  }

  /** A prefix of the samples never has more runs than the whole list, so the
      precondition on the whole list bounds every intermediate slot index. */
  lemma {:induction false} RunCountOfPrefix(xs: seq<Sample>, today: int, skipToday: bool, i: nat)
    requires i <= |xs|
    ensures |Runs(Considered(xs[..i], today, skipToday))| <= |Runs(Considered(xs, today, skipToday))|
    decreases |xs| - i
  {
    if i < |xs| {
      var before, after := Considered(xs[..i], today, skipToday), Considered(xs[..i + 1], today, skipToday);
      RunCountOfPrefix(xs, today, skipToday, i + 1);
      RunCountStep(xs, i, today, skipToday);
      assert |Runs(before)| <= |Runs(after)| <= |Runs(Considered(xs, today, skipToday))|;
    } else {
      assert xs[..i] == xs;
    }
  }

  /** One more sample of the list never lowers the number of runs. */
  lemma RunCountStep(xs: seq<Sample>, i: nat, today: int, skipToday: bool)
    requires i < |xs|
    ensures |Runs(Considered(xs[..i], today, skipToday))| <= |Runs(Considered(xs[..i + 1], today, skipToday))|
  {
    ConsideredPrefixStep(xs, i, today, skipToday);
    var c := Considered(xs[..i], today, skipToday);
    if !(skipToday && xs[i].weekday == today) {
      RunCountGrows(c, xs[i]);
    }
  }

  /** The concatenation of a list of runs. */
  function Flatten(rs: seq<seq<Sample>>): (r: seq<Sample>)
    ensures |rs| > 0 ==> |r| >= |rs[|rs| - 1]|
  {
    if rs == [] then [] else Flatten(rs[..|rs| - 1]) + rs[|rs| - 1]
  }

  /** The last run ends with the last sample. */
  lemma RunsLast(xs: seq<Sample>)
    requires xs != []
    ensures var r := Runs(xs); r[|r| - 1][|r[|r| - 1]| - 1] == xs[|xs| - 1]
  {
    var p, s := xs[..|xs| - 1], xs[|xs| - 1];
    assert p + [s] == xs;
    RunsAppend(p, s);
  }

  /** Every sample of every run is one of the input samples. */
  predicate MembersOf(rs: seq<seq<Sample>>, xs: seq<Sample>) {
    forall i, j :: 0 <= i < |rs| && 0 <= j < |rs[i]| ==> rs[i][j] in xs
  }

  lemma {:induction false} RunsMembers(xs: seq<Sample>)
    ensures MembersOf(Runs(xs), xs)
  {
    if xs != [] {
      var p, s := xs[..|xs| - 1], xs[|xs| - 1];
      assert p + [s] == xs;
      RunsMembers(p);
      RunsAppend(p, s);
      var r: seq<seq<Sample>>, r': seq<seq<Sample>> := Runs(p), Runs(xs);
      forall i, j | 0 <= i < |r'| && 0 <= j < |r'[i]| ensures r'[i][j] in xs {
        if i < |r| - 1 || (i == |r| - 1 && OpensSlot(p, s)) {
          assert r'[i] == r[i];
          assert r[i][j] in p;
        } else if i == |r| - 1 && j < |r[i]| {
          assert r'[i][j] == r[i][j];
          assert r[i][j] in p;
        } else {
          assert r'[i][j] == s;
        }
      }
    }
  }

  /** The runs, concatenated in order, give back the samples. */
  lemma {:induction false} RunsFlatten(xs: seq<Sample>)
    ensures Flatten(Runs(xs)) == xs
  {
    if xs != [] {
      var p, s := xs[..|xs| - 1], xs[|xs| - 1];
      assert p + [s] == xs;
      RunsFlatten(p);
      RunsAppend(p, s);
      var r: seq<seq<Sample>> := Runs(p);
      if OpensSlot(p, s) {
        assert (r + [[s]])[..|r|] == r;
      } else {
        var m := |r| - 1;
        var longer := r[..m] + [r[m] + [s]];
        assert longer[..m] == r[..m];
        assert r[..m] + [r[m]] == r;
        assert Flatten(r) == Flatten(r[..m]) + r[m];
        assert Flatten(longer) == Flatten(r[..m]) + (r[m] + [s]);
      }
    }
  }

  /** All samples of a run share the weekday of its first sample. */
  predicate Uniform(rs: seq<seq<Sample>>) {
    forall i, j :: 0 <= i < |rs| && 0 <= j < |rs[i]| ==> rs[i][j].weekday == rs[i][0].weekday
  }

  lemma UniformNewRun(r: seq<seq<Sample>>, s: Sample)
    requires Uniform(r)
    ensures Uniform(r + [[s]])
  {
    var r': seq<seq<Sample>> := r + [[s]];
    forall i, j | 0 <= i < |r'| && 0 <= j < |r'[i]| ensures r'[i][j].weekday == r'[i][0].weekday {
      if i < |r| {
        assert r'[i] == r[i];
      }
    }
  }

  lemma UniformLongerRun(r: seq<seq<Sample>>, s: Sample)
    requires Uniform(r) && |r| > 0 && r[|r| - 1] != []
    requires s.weekday == r[|r| - 1][0].weekday
    ensures Uniform(r[..|r| - 1] + [r[|r| - 1] + [s]])
  {
    var m := |r| - 1;
    var r': seq<seq<Sample>> := r[..m] + [r[m] + [s]];
    forall i, j | 0 <= i < |r'| && 0 <= j < |r'[i]| ensures r'[i][j].weekday == r'[i][0].weekday {
      if i < m {
        assert r'[i] == r[i];
      } else if j < |r[m]| {
        assert r'[i][j] == r[m][j] && r'[i][0] == r[m][0];
      } else {
        assert r'[i][j] == s && r'[i][0] == r[m][0];
      }
    }
  }

  lemma {:induction false} RunsUniform(xs: seq<Sample>)
    ensures Uniform(Runs(xs))
  {
    if xs != [] {
      var p, s := xs[..|xs| - 1], xs[|xs| - 1];
      assert p + [s] == xs;
      RunsUniform(p);
      RunsAppend(p, s);
      var r: seq<seq<Sample>> := Runs(p);
      if OpensSlot(p, s) {
        UniformNewRun(r, s);
      } else {
        RunsLast(p);
        var m := |r| - 1;
        assert r[m][|r[m]| - 1].weekday == r[m][0].weekday;
        UniformLongerRun(r, s);
      }
    }
  }

  /** Consecutive runs have different weekdays: together with `RunsUniform` and
      `RunsFlatten`, a slot is opened exactly when a considered sample's weekday
      differs from its predecessor's. */
  predicate Alternating(rs: seq<seq<Sample>>)
    requires forall i :: 0 <= i < |rs| ==> rs[i] != []
  {
    forall i :: 0 < i < |rs| ==> rs[i][0].weekday != rs[i - 1][0].weekday
  }

  lemma AlternatingNewRun(r: seq<seq<Sample>>, s: Sample)
    requires forall i :: 0 <= i < |r| ==> r[i] != []
    requires Alternating(r)
    requires |r| > 0 ==> r[|r| - 1][0].weekday != s.weekday
    ensures Alternating(r + [[s]])
  {
    var r': seq<seq<Sample>> := r + [[s]];
    forall i | 0 < i < |r'| ensures r'[i][0].weekday != r'[i - 1][0].weekday {
      assert r'[i - 1] == r[i - 1];
      if i < |r| {
        assert r'[i] == r[i];
      }
    }
  }

  lemma AlternatingLongerRun(r: seq<seq<Sample>>, s: Sample)
    requires forall i :: 0 <= i < |r| ==> r[i] != []
    requires Alternating(r) && |r| > 0
    ensures Alternating(r[..|r| - 1] + [r[|r| - 1] + [s]])
  {
    var m := |r| - 1;
    var r': seq<seq<Sample>> := r[..m] + [r[m] + [s]];
    forall i | 0 < i < |r'| ensures r'[i][0].weekday != r'[i - 1][0].weekday {
      assert r'[i - 1] == r[i - 1];
      if i < m {
        assert r'[i] == r[i];
      } else {
        assert r'[i][0] == r[m][0];
      }
    }
  }

  lemma {:induction false} RunsAlternate(xs: seq<Sample>)
    ensures Alternating(Runs(xs))
  {
    if xs != [] {
      var p, s := xs[..|xs| - 1], xs[|xs| - 1];
      assert p + [s] == xs;
      RunsAlternate(p);
      RunsAppend(p, s);
      var r: seq<seq<Sample>> := Runs(p);
      if OpensSlot(p, s) {
        if p != [] {
          RunsLast(p);
          RunsUniform(p);
          var m := |r| - 1;
          assert r[m][|r[m]| - 1].weekday == r[m][0].weekday;
        }
        AlternatingNewRun(r, s);
      } else {
        AlternatingLongerRun(r, s);
      }
    }
  }

  /** The temperatures of a run's slot: `minTemp` is at most every temperature of
      the run and is either one of them or the reset value 200; `maxTemp`
      likewise with -200. Hence `minTemp <= maxTemp`. */
  lemma {:induction false} SummaryTemperatures(run: seq<Sample>)
    requires run != []
    ensures var d := Summarize(run);
      && d.minTemp <= 200.0 && d.maxTemp >= -200.0
      && (forall i :: 0 <= i < |run| ==> d.minTemp <= run[i].temp <= d.maxTemp)
      && (d.minTemp == 200.0 || exists i :: 0 <= i < |run| && d.minTemp == run[i].temp)
      && (d.maxTemp == -200.0 || exists i :: 0 <= i < |run| && d.maxTemp == run[i].temp)
      && d.minTemp <= d.maxTemp
  {
    if |run| > 1 {
      var p := run[..|run| - 1];
      SummaryTemperatures(p);
      var d := Summarize(p);
      var r := Summarize(run);
      assert forall i :: 0 <= i < |p| ==> run[i] == p[i];
      if r.minTemp != 200.0 && r.minTemp != run[|run| - 1].temp {
        var i :| 0 <= i < |p| && d.minTemp == p[i].temp;
        assert r.minTemp == run[i].temp;
      }
      if r.maxTemp != -200.0 && r.maxTemp != run[|run| - 1].temp {
        var i :| 0 <= i < |p| && d.maxTemp == p[i].temp;
        assert r.maxTemp == run[i].temp;
      }
    }
  }

  /** With temperatures strictly between -200 and 200, the slot holds exactly the
      minimum and maximum temperature of its run. */
  lemma ExactExtremes(run: seq<Sample>)
    requires run != []
    requires forall i :: 0 <= i < |run| ==> -200.0 < run[i].temp < 200.0
    ensures var d := Summarize(run);
      && (exists i :: 0 <= i < |run| && d.minTemp == run[i].temp)
      && (exists i :: 0 <= i < |run| && d.maxTemp == run[i].temp)
      && (forall i :: 0 <= i < |run| ==> d.minTemp <= run[i].temp <= d.maxTemp)
  {
    SummaryTemperatures(run);
  }

  /** Sample `j` of a run is the earliest one nearest to noon: every earlier sample
      is strictly farther from 12 o'clock and no later one is nearer. */
  predicate IsNoonChoice(run: seq<Sample>, j: int) {
    && 0 <= j < |run|
    && (forall i :: 0 <= i < j ==> NoonDistance(run[i].hour) > NoonDistance(run[j].hour))
    && (forall i :: j <= i < |run| ==> NoonDistance(run[i].hour) >= NoonDistance(run[j].hour))
  }

  /** The condition kept for a run is that of its earliest sample nearest to noon.
      The reset hour 25 is 13 hours from noon, farther than any real hour, so the
      first sample of a run is always taken. */
  lemma {:induction false} SummaryCondition(run: seq<Sample>)
    requires run != [] && ValidSamples(run)
    ensures exists j :: (IsNoonChoice(run, j)
      && Summarize(run).conditionHour == run[j].hour
      && Summarize(run).conditionCode == run[j].weatherId)
  {
    if |run| == 1 {
      assert IsNoonChoice(run, 0);
    } else {
      var p := run[..|run| - 1];
      var s := run[|run| - 1];
      assert ValidSamples(p) by {
        forall i | 0 <= i < |p| ensures ValidSample(p[i]) {
          assert p[i] == run[i];
        }
      }
      SummaryCondition(p);
      var j :| IsNoonChoice(p, j) && Summarize(p).conditionHour == p[j].hour
        && Summarize(p).conditionCode == p[j].weatherId;
      assert Summarize(run) == Absorb(Summarize(p), s);
      var d := NoonDistance(p[j].hour);
      if NoonDistance(s.hour) < d {
        forall i | 0 <= i < |run| - 1 ensures NoonDistance(run[i].hour) > NoonDistance(s.hour) {
          assert run[i] == p[i];
          assert i < j || j <= i;
        }
        assert IsNoonChoice(run, |run| - 1);
      } else {
        forall i | 0 <= i < j ensures NoonDistance(run[i].hour) > d {
          assert run[i] == p[i];
        }
        forall i | j <= i < |run| ensures NoonDistance(run[i].hour) >= d {
          if i < |p| {
            assert run[i] == p[i];
          }
        }
        assert run[j] == p[j];
        assert IsNoonChoice(run, j);
      }
    }
  }

  /** What the caller reads from the slots: as many entries as slots; the first
      ones summarise the runs in order, each with the run's weekday and
      `minTemp <= maxTemp`; every later one still holds the reset value. */
  lemma DayForecastsShape(xs: seq<Sample>, today: int, skipToday: bool, n: nat)
    ensures var runs := Runs(Considered(xs, today, skipToday));
      var r := DayForecastsOf(xs, today, skipToday, n);
      && |r| == n
      && (forall i :: 0 <= i < n && i < |runs| ==> r[i].day == runs[i][0].weekday && r[i].minTemp <= r[i].maxTemp)
      && (forall i :: |runs| <= i < n ==> r[i] == Sentinel)
  {
    var runs := Runs(Considered(xs, today, skipToday));
    forall i | 0 <= i < n && i < |runs|
      ensures Summarize(runs[i]).minTemp <= Summarize(runs[i]).maxTemp
    {
      SummaryTemperatures(runs[i]);
    }
  }

  /** Without the skip-today option every sample is considered. */
  lemma {:induction false} ConsideredAll(xs: seq<Sample>, today: int)
    ensures Considered(xs, today, false) == xs
  {
    if xs != [] {
      ConsideredAll(xs[..|xs| - 1], today);
      assert xs[..|xs| - 1] + [xs[|xs| - 1]] == xs;
    }
  }

  /** With the skip-today option no considered sample is from today. */
  lemma {:induction false} ConsideredSkips(xs: seq<Sample>, today: int)
    ensures forall s :: s in Considered(xs, today, true) ==> s.weekday != today
  {
    if xs != [] {
      ConsideredSkips(xs[..|xs| - 1], today);
    }
  }

  /** With the skip-today option no slot is filled for today's weekday. */
  lemma NoSlotForToday(xs: seq<Sample>, today: int, n: nat)
    ensures var runs := Runs(Considered(xs, today, true));
      forall i :: 0 <= i < n && i < |runs| ==> DayForecastsOf(xs, today, true, n)[i].day != today
  {
    var c := Considered(xs, today, true);
    var runs := Runs(c);
    RunsMembers(c);
    ConsideredSkips(xs, today);
    forall i | 0 <= i < n && i < |runs|
      ensures DayForecastsOf(xs, today, true, n)[i].day != today
    {
      assert runs[i][0] in c;
    }
  }

  /** A worked example: two Monday samples (9 h, 10 degrees, code 801; 14 h, 18
      degrees, code 800) and one Tuesday sample (10 h, 5 degrees, code 600) give
      Monday 10..18 with the 14 h condition, since 14 h is nearer noon than 9 h,
      and Tuesday 5..5 with code 600. */
  lemma TwoDayExample()
    ensures DayForecastsOf([Sample(1, 9, 10.0, 801), Sample(1, 14, 18.0, 800), Sample(2, 10, 5.0, 600)], 0, false, 2)
         == [DayForecast(10.0, 18.0, 800, 14, 1), DayForecast(5.0, 5.0, 600, 10, 2)]
  {
    var a, b, c := Sample(1, 9, 10.0, 801), Sample(1, 14, 18.0, 800), Sample(2, 10, 5.0, 600);
    RunsAppend([], a);
    RunsAppend([a], b);
    RunsAppend([a, b], c);
    assert [a] + [b] == [a, b];
    assert [a, b] + [c] == [a, b, c];
    assert Runs([a, b, c]) == [[a, b], [c]];
    ConsideredAll([a, b, c], 0);
    assert [a, b][..1] == [a];
    assert Summarize([a]) == DayForecast(10.0, 10.0, 801, 9, 1);
    assert Summarize([a, b]) == DayForecast(10.0, 18.0, 800, 14, 1);
    assert Summarize([c]) == DayForecast(5.0, 5.0, 600, 10, 2);
  }
}
