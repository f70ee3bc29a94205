/** The mapping from OpenWeatherMap condition codes to the names of the weather icon
    bitmaps, including the night variants of the 8xx ("clear"/"clouds") group. */
module WeatherIcons {
  import opened CArith

  /** The bitmaps under /weather/ that the mapping can select. */
  datatype Icon =
    | Thunderstorm | Drizzle | LightRain | ExtremRain | Sleet | Rain | Snow | Fog
    | ClearDay | PartlyCloudyDay | Cloudy | ClearNight | PartlyCloudyNight | Unknown

  /** The bitmap's base name as the firmware spells it. */
  function FileName(icon: Icon): string
  {
    match icon
    case Thunderstorm => "thunderstorm"
    case Drizzle => "drizzle"
    case LightRain => "light-rain"
    case ExtremRain => "extrem-rain"
    case Sleet => "sleet"
    case Rain => "rain"
    case Snow => "snow"
    case Fog => "fog"
    case ClearDay => "clear-day"
    case PartlyCloudyDay => "partly-cloudy-day"
    case Cloudy => "cloudy"
    case ClearNight => "clear-night"
    case PartlyCloudyNight => "partly-cloudy-night"
    case Unknown => "unknown"
  }

  /** Night is before sunrise or after sunset of the current observation. */
  predicate IsNight(observationTime: int, sunrise: int, sunset: int)
  {
    observationTime < sunrise || observationTime > sunset
  }

  /** The code after the optional night shift: the 8xx group of today's weather is
      moved to 18xx at night (a 16-bit addition). */
  function NightShifted(id: u16, today: bool, night: bool): (r: u16)
    ensures !(800 <= id <= 899) ==> r == id
    ensures 800 <= id <= 899 ==> r == id || r == id + 1000
  {
    if today && id / 100 == 8 && night then ToU16(id + 1000) else id
  }

  /** The ordered chain of rules, first match wins. */
  function IconOfCode(id: u16): (icon: Icon)
    ensures icon == ClearNight <==> id == 1800
    ensures icon == PartlyCloudyNight <==> id == 1801
  {
    if id / 100 == 2 then Thunderstorm
    else if id / 100 == 3 then Drizzle
    else if id == 500 then LightRain
    else if id == 504 then ExtremRain
    else if id == 511 then Sleet
    else if id / 100 == 5 then Rain
    else if 611 <= id <= 616 then Sleet
    else if id / 100 == 6 then Snow
    else if id / 100 == 7 then Fog
    else if id == 800 then ClearDay
    else if 801 <= id <= 803 then PartlyCloudyDay
    else if id / 100 == 8 then Cloudy
    else if id == 1800 then ClearNight
    else if id == 1801 then PartlyCloudyNight
    else if id / 100 == 18 then Cloudy
    else Unknown
  }

  /** getWeatherIconName: the icon for a condition code; `today` selects the current
      weather, for which the night variants are used. */
  function WeatherIconName(id: u16, today: bool, observationTime: int, sunrise: int, sunset: int): (icon: Icon)
    ensures !today ==> icon == IconOfCode(id)
  {
    IconOfCode(NightShifted(id, today, IsNight(observationTime, sunrise, sunset)))
  }

  /** Which codes each icon stands for, stated group by group independently of the
      order of the rules. */
  predicate Denotes(icon: Icon, id: int)
  {
    match icon
    case Thunderstorm => 200 <= id <= 299
    case Drizzle => 300 <= id <= 399
    case LightRain => id == 500
    case ExtremRain => id == 504
    case Sleet => id == 511 || 611 <= id <= 616
    case Rain => 500 <= id <= 599 && id != 500 && id != 504 && id != 511
    case Snow => 600 <= id <= 699 && !(611 <= id <= 616)
    case Fog => 700 <= id <= 799
    case ClearDay => id == 800
    case PartlyCloudyDay => 801 <= id <= 803
    case Cloudy => 804 <= id <= 899 || 1802 <= id <= 1899
    case ClearNight => id == 1800
    case PartlyCloudyNight => id == 1801
    case Unknown => id < 200 || 400 <= id <= 499 || 900 <= id <= 1799 || 1900 <= id
  }

  /** The hundreds digit of a code, as `id / 100` computes it, by ranges. */
  lemma HundredsDigit(id: u16, h: int)
    ensures id / 100 == h <==> h * 100 <= id < h * 100 + 100
  {
  }

  /** The rule chain selects exactly the icon whose group contains the code: every
      code has an icon, and "unknown" is the answer exactly for the codes no group
      claims. */
  lemma IconOfCodeDenotes(id: u16, icon: Icon)
    ensures IconOfCode(id) == icon <==> Denotes(icon, id)
  {
    HundredsDigit(id, 2);
    HundredsDigit(id, 3);
    HundredsDigit(id, 5);
    HundredsDigit(id, 6);
    HundredsDigit(id, 7);
    HundredsDigit(id, 8);
    HundredsDigit(id, 18);
  }

  /** The code is changed only for today's 8xx weather at night, and then moved to the
      18xx range without wrapping. */
  lemma NightShiftOnlyForTodaysClouds(id: u16, today: bool, night: bool)
    ensures NightShifted(id, today, night) != id <==> today && 800 <= id <= 899 && night
    ensures NightShifted(id, today, night) != id ==> NightShifted(id, today, night) == id + 1000
  {
    HundredsDigit(id, 8);
  }

  /** The icon a day-time 8xx icon turns into at night. */
  function NightVariant(icon: Icon): Icon
  {
    match icon
    case ClearDay => ClearNight
    case PartlyCloudyDay => PartlyCloudyNight
    case _ => icon
  }

  /** Today's 8xx weather at night shows the night variant of its day icon, except
      that only 801 has a partly cloudy night icon: 802 and 803, partly cloudy by day,
      are "cloudy" at night. Overcast stays "cloudy". */
  lemma TodayAtNightUsesNightVariant(id: u16, observationTime: int, sunrise: int, sunset: int)
    requires 800 <= id <= 899
    requires IsNight(observationTime, sunrise, sunset)
    ensures id != 802 && id != 803 ==>
      WeatherIconName(id, true, observationTime, sunrise, sunset) == NightVariant(IconOfCode(id))
    ensures id == 802 || id == 803 ==>
      IconOfCode(id) == PartlyCloudyDay && WeatherIconName(id, true, observationTime, sunrise, sunset) == Cloudy
  {
    NightShiftOnlyForTodaysClouds(id, true, true);
    assert NightShifted(id, true, IsNight(observationTime, sunrise, sunset)) == id + 1000;
    var icon := IconOfCode(id);
    IconOfCodeDenotes(id, icon);
    if id != 802 && id != 803 {
      assert Denotes(NightVariant(icon), id + 1000);
      IconOfCodeDenotes(id + 1000, NightVariant(icon));
    }
  }

  /** In daylight, or for any other group, today's weather maps like a forecast. */
  lemma DaytimeUsesDayIcon(id: u16, today: bool, observationTime: int, sunrise: int, sunset: int)
    requires !(today && 800 <= id <= 899 && IsNight(observationTime, sunrise, sunset))
    ensures WeatherIconName(id, today, observationTime, sunrise, sunset) == IconOfCode(id)
  {
    NightShiftOnlyForTodaysClouds(id, today, IsNight(observationTime, sunrise, sunset));
  }

  /** The day forecasts ask with `today` false: an OpenWeatherMap code (never in the
      18xx range) then never yields a night icon. */
  lemma ForecastsNeverShowNightIcons(id: u16, observationTime: int, sunrise: int, sunset: int)
    requires !(1800 <= id <= 1899)
    ensures WeatherIconName(id, false, observationTime, sunrise, sunset) != ClearNight
    ensures WeatherIconName(id, false, observationTime, sunrise, sunset) != PartlyCloudyNight
  {
    IconOfCodeDenotes(id, ClearNight);
    IconOfCodeDenotes(id, PartlyCloudyNight);
  }

  /** Different icons are stored under different names. */
  lemma FileNamesDistinct(a: Icon, b: Icon)
    requires a != b
    ensures FileName(a) != FileName(b)
  {
  }
}
