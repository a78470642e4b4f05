/**
 * The discrete parts of PrayerTimeCalculator: the integer Julian Day
 * formula, the table of calculation conventions, the truncating "HH:MM"
 * formatter and the six-key result map.  The solar trigonometry is supplied
 * by the caller as an `Astronomy` value and is otherwise left abstract.
 */
module Calculator {
  import opened Wrappers
  import opened Text
  import opened Calendar

  /** Kotlin's Int division, which truncates toward zero. */
  function KDiv(a: int, b: int): int
    requires b > 0
  {
    if a >= 0 then a / b else -((-a) / b)
  }

  /**
   * The March-based year and month of the Julian Day formula:
   * a = (14 - month) / 12, y = year - a, m = month + 12·a - 3.
   */
  function MarchShift(year: int, month: int): (r: (int, int, int))
  {
    var a := KDiv(14 - month, 12);
    (a, year - a, month + 12 * a - 3)
  }

  /** For a real month, `a` flags January and February, and `m` counts months from March. */
  lemma MarchShiftRange(year: int, month: int)
    requires IsMonth(month)
    ensures var (a, y, m) := MarchShift(year, month);
            && (a == 1 <==> month <= 2) && (a == 0 <==> month >= 3)
            && y == year - a && 0 <= m <= 11
  {
  }

  /** getJulianDay: the Julian Day Number of a Gregorian date, in Int arithmetic. */
  function JulianDay(year: int, month: int, day: int): int {
    var (a, y, m) := MarchShift(year, month);
    day + KDiv(153 * m + 2, 5) + 365 * y + KDiv(y, 4) - KDiv(y, 100) + KDiv(y, 400) + 1721119
  }

  /** The epoch 2000-01-01 that the solar formulas subtract from the Julian Day. */
  const J2000: int := 2451545

  lemma JulianDayEpoch()
    ensures JulianDay(2000, 1, 1) == J2000
  {
  }

  lemma DivStep4(y: int)
    requires y >= 1
    ensures y / 4 - (y - 1) / 4 == (if y % 4 == 0 then 1 else 0)
  {
  }

  lemma DivStep100(y: int)
    requires y >= 1
    ensures y / 100 - (y - 1) / 100 == (if y % 100 == 0 then 1 else 0)
  {
  }

  lemma DivStep400(y: int)
    requires y >= 1
    ensures y / 400 - (y - 1) / 400 == (if y % 400 == 0 then 1 else 0)
  {
  }

  lemma Multiple400(y: int)
    requires y % 400 == 0
    ensures y % 100 == 0
  {
    var q := y / 400;
    assert y == 100 * (4 * q) + 0;
  }

  lemma Multiple100(y: int)
    requires y % 100 == 0
    ensures y % 4 == 0
  {
    var q := y / 100;
    assert y == 4 * (25 * q) + 0;
  }

  /** A multiple of 400 is a multiple of 100, and a multiple of 100 one of 4. */
  lemma DivisorChain(y: int)
    ensures y % 400 == 0 ==> y % 100 == 0
    ensures y % 100 == 0 ==> y % 4 == 0
  {
    if y % 400 == 0 {
      Multiple400(y);
    }
    if y % 100 == 0 {
      Multiple100(y);
    }
  }

  /** One more year adds exactly that year's length to the leap-day terms. */
  lemma YearTermsStep(y: int)
    requires y >= 1
    ensures (365 * y + y / 4 - y / 100 + y / 400) - (365 * (y - 1) + (y - 1) / 4 - (y - 1) / 100 + (y - 1) / 400)
         == DaysInYear(y)
  {
    DivStep4(y);
    DivStep100(y);
    DivStep400(y);
    DivisorChain(y);
  }

  /** The leap-day terms 365·y + y/4 - y/100 + y/400 count the days of the years 1..y. */
  lemma {:induction false} YearTerms(y: nat)
    ensures 365 * y + y / 4 - y / 100 + y / 400 == DaysBeforeYear(y + 1)
  {
    if y > 0 {
      YearTerms(y - 1);
      YearTermsStep(y);
    }
  }

  /** Days before the first of each month: 0, 31, 59, 90, ... plus the leap day from March on. */
  function CumulativeDays(y: int, m: int): int
    requires IsMonth(m)
  {
    var table := [0, 31, 59, 90, 120, 151, 181, 212, 243, 273, 304, 334];
    table[m - 1] + (if m > 2 && IsLeapYear(y) then 1 else 0)
  }

  lemma {:induction false} DaysBeforeMonthTable(y: int, m: int)
    requires IsMonth(m)
    ensures DaysBeforeMonth(y, m) == CumulativeDays(y, m)
  {
    if m > 1 {
      DaysBeforeMonthTable(y, m - 1);
    }
  }

  /** The month term (153·m + 2) / 5 of the formula, for March-based m in 0..11. */
  lemma MonthTerm(month: int)
    requires IsMonth(month)
    ensures month >= 3 ==> KDiv(153 * (month - 3) + 2, 5) == CumulativeDays(1, month) - 59
    ensures month <= 2 ==> KDiv(153 * (month + 9) + 2, 5) == CumulativeDays(1, month) + 306
  {
  }

  /** The Julian Day is the ordinal day count offset by 1721425, for every year from 1 on. */
  lemma JulianDayIsDayNumber(year: int, month: int, day: int)
    requires year >= 1 && IsMonth(month)
    ensures JulianDay(year, month, day) == 1721425 + DayNumber(year, month, day)
  {
    DaysBeforeMonthTable(year, month);
    MonthTerm(month);
    if month <= 2 {
      assert MarchShift(year, month) == (1, year - 1, month + 9);
      YearTerms(year - 1);
    } else {
      assert MarchShift(year, month) == (0, year, month - 3);
      YearTerms(year);
    }
  }

  /** Within a month, the next day has the next Julian Day. */
  lemma JulianDayNextInMonth(year: int, month: int, day: int)
    ensures JulianDay(year, month, day + 1) == JulianDay(year, month, day) + 1
  {
  }

  /** The count runs on without gap or overlap across month ends, year ends and Feb 29. */
  lemma JulianDayNextDay(year: int, month: int, day: int)
    requires IsDate(year, month, day)
    ensures var (y', m', d') := NextDay(year, month, day);
            JulianDay(y', m', d') == JulianDay(year, month, day) + 1
  {
    var (y', m', d') := NextDay(year, month, day);
    JulianDayIsDayNumber(year, month, day);
    JulianDayIsDayNumber(y', m', d');
    NextDayNumber(year, month, day);
  }

  /** The angles (degrees) and Asr shadow factor of one calculation convention. */
  datatype CalculationParams = CalculationParams(fajrAngle: real, asrFactor: real, maghribAngle: real, ishaAngle: real)

  const IsnaParams: CalculationParams := CalculationParams(15.0, 1.0, -0.833, 15.0)

  const KnownMethods: set<string> := {"ISNA", "MWL", "EGYPT", "MAKKAH", "KARACHI", "TEHRAN"}

  /** getCalculationParameters: case-sensitive lookup, anything unknown falls back to ISNA. */
  function GetCalculationParameters(methodName: string): (p: CalculationParams)
    ensures p.asrFactor == 1.0 && p.maghribAngle == -0.833
    ensures methodName !in KnownMethods ==> p == IsnaParams
  {
    match methodName
    case "ISNA" => CalculationParams(15.0, 1.0, -0.833, 15.0)
    case "MWL" => CalculationParams(18.0, 1.0, -0.833, 17.0)
    case "EGYPT" => CalculationParams(19.5, 1.0, -0.833, 17.5)
    case "MAKKAH" => CalculationParams(18.5, 1.0, -0.833, 90.0)
    case "KARACHI" => CalculationParams(18.0, 1.0, -0.833, 18.0)
    case "TEHRAN" => CalculationParams(17.7, 1.0, -0.833, 14.0)
    case _ => CalculationParams(15.0, 1.0, -0.833, 15.0)
  }

  /** "ISNA" is an explicit entry, and the six known conventions have six different parameter sets. */
  lemma KnownMethodsDistinct(m1: string, m2: string)
    requires m1 in KnownMethods && m2 in KnownMethods
    ensures GetCalculationParameters(m1) == GetCalculationParameters(m2) <==> m1 == m2
    ensures GetCalculationParameters("ISNA") == IsnaParams
  {
  }

  /** Conventions differ only in their Fajr and Isha angles. */
  lemma MethodsShareAsrAndMaghrib(m1: string, m2: string)
    ensures GetCalculationParameters(m1).asrFactor == GetCalculationParameters(m2).asrFactor
    ensures GetCalculationParameters(m1).maghribAngle == GetCalculationParameters(m2).maghribAngle
  {
  }

  /** Lookup is case-sensitive: "isna" is not a known name, so it gets the fallback. */
  lemma LowerCaseIsFallback()
    ensures "isna" !in KnownMethods && GetCalculationParameters("isna") == IsnaParams
  {
  }

  /** Kotlin's Double.toInt(): truncation toward zero, saturating at the Int bounds. */
  function DoubleToInt(x: real): (n: int)
    ensures IntMin <= n <= IntMax
  {
    var t := if x >= 0.0 then x.Floor else -((-x).Floor);
    if t < IntMin then IntMin else if t > IntMax then IntMax else t
  }

  /** Inside the Int range the conversion drops the fraction toward zero; outside it sticks at the nearer bound. */
  lemma DoubleToIntTruncates(x: real)
    ensures 0.0 <= x < IntMax as real ==> DoubleToInt(x) as real <= x < DoubleToInt(x) as real + 1.0
    ensures IntMin as real < x <= 0.0 ==> DoubleToInt(x) as real - 1.0 < x <= DoubleToInt(x) as real
    ensures x >= IntMax as real ==> DoubleToInt(x) == IntMax
    ensures x <= IntMin as real ==> DoubleToInt(x) == IntMin
  {
  }

  /** formatTime: truncate to whole hours, truncate the rest to whole minutes, print "%02d:%02d". */
  function FormatTime(time: real): string {
    var hours := DoubleToInt(time);
    var minutes := DoubleToInt((time - hours as real) * 60.0);
    ClockText(hours, minutes)
  }

  /**
   * Inside one day, formatTime yields a well-formed "HH:MM" that truncates:
   * it names the whole minute in which the instant falls.
   */
  lemma FormatTimeWithinDay(t: real)
    requires 0.0 <= t < 24.0
    ensures var s := FormatTime(t);
            && IsClockText(s) && |s| == 5 && s[2] == ':'
            && 0 <= ClockHour(s) <= 23 && 0 <= ClockMinute(s) <= 59
            && ClockMinutes(s) as real <= 60.0 * t < ClockMinutes(s) as real + 1.0
  {
    var h := t.Floor;
    assert DoubleToInt(t) == h;
    var f := (t - h as real) * 60.0;
    assert 0.0 <= f < 60.0;
    var m := f.Floor;
    assert DoubleToInt(f) == m;
    ClockTextRoundTrip(h, m);
  }

  /** No wrap-around: a time past midnight keeps its hour count and is not "HH:mm". */
  lemma FormatTimeNoWrap()
    ensures FormatTime(24.5) == "24:30" && !IsClockText(FormatTime(24.5))
    ensures FormatTime(-0.25) == "00:-15"
  {
    assert DoubleToInt(24.5) == 24;
    assert DoubleToInt(30.0) == 30;
    assert NatText(24) == "24" && NatText(30) == "30";
    assert DoubleToInt(-0.25) == 0;
    assert DoubleToInt(-15.0) == -15;
    assert NatText(15) == "15";
  }

  /**
   * The floating-point solar model, left abstract.  `declination` and
   * `equationOfTime` take the Julian Day; `hourAngle(angle, lat, δ)` is
   * degrees(acos((-sin(angle) - sin(lat)·sin δ) / (cos(lat)·cos δ)));
   * `asrHourAngle(factor, lat, δ)` is the same for the Asr shadow altitude.
   */
  datatype Astronomy = Astronomy(
    declination: int -> real,
    equationOfTime: int -> real,
    hourAngle: (real, real, real) -> real,
    asrHourAngle: (real, real, real) -> real)

  /** The sunrise altitude the calculator fixes for Sunrise. */
  const SunriseAngle: real := -0.833

  /** Clock hours of an event before solar noon, for an hour angle in degrees. */
  function MorningTime(h: real, lng: real, eqTime: real): real {
    12.0 - h / 15.0 - lng / 15.0 + eqTime / 60.0
  }

  function EveningTime(h: real, lng: real, eqTime: real): real {
    12.0 + h / 15.0 - lng / 15.0 + eqTime / 60.0
  }

  function NoonTime(lng: real, eqTime: real): real {
    12.0 - lng / 15.0 + eqTime / 60.0
  }

  /** Morning and evening events sit symmetrically around solar noon; a non-negative hour angle orders them. */
  lemma NoonBetween(h: real, lng: real, eqTime: real)
    requires h >= 0.0
    ensures MorningTime(h, lng, eqTime) <= NoonTime(lng, eqTime) <= EveningTime(h, lng, eqTime)
    ensures NoonTime(lng, eqTime) - MorningTime(h, lng, eqTime) == EveningTime(h, lng, eqTime) - NoonTime(lng, eqTime)
  {
  }

  const PrayerKeys: set<string> := {"Fajr", "Sunrise", "Dhuhr", "Asr", "Maghrib", "Isha"}

  /** The map calculatePrayerTimes returns, as one value. */
  function PrayerTimeTable(year: int, month: int, day: int, latitude: real, longitude: real,
                           methodName: string, astro: Astronomy): map<string, string>
  {
    var jd := JulianDay(year, month, day);
    var decl := astro.declination(jd);
    var eqt := astro.equationOfTime(jd);
    var p := GetCalculationParameters(methodName);
    TimesMap(
      FormatTime(MorningTime(astro.hourAngle(p.fajrAngle, latitude, decl), longitude, eqt)),
      FormatTime(MorningTime(astro.hourAngle(SunriseAngle, latitude, decl), longitude, eqt)),
      FormatTime(NoonTime(longitude, eqt)),
      FormatTime(EveningTime(astro.asrHourAngle(p.asrFactor, latitude, decl), longitude, eqt)),
      FormatTime(EveningTime(astro.hourAngle(p.maghribAngle, latitude, decl), longitude, eqt)),
      FormatTime(EveningTime(astro.hourAngle(p.ishaAngle, latitude, decl), longitude, eqt)))
  }

  /** The six formatted times under their prayer names. */
  function TimesMap(fajr: string, sunrise: string, dhuhr: string, asr: string, maghrib: string, isha: string)
    : map<string, string>
  {
    map["Fajr" := fajr, "Sunrise" := sunrise, "Dhuhr" := dhuhr, "Asr" := asr, "Maghrib" := maghrib, "Isha" := isha]
  }

  lemma TimesMapEntries(fajr: string, sunrise: string, dhuhr: string, asr: string, maghrib: string, isha: string)
    ensures var t := TimesMap(fajr, sunrise, dhuhr, asr, maghrib, isha);
            && t.Keys == PrayerKeys
            && t["Fajr"] == fajr && t["Sunrise"] == sunrise && t["Dhuhr"] == dhuhr
            && t["Asr"] == asr && t["Maghrib"] == maghrib && t["Isha"] == isha
  {
  }

  /** calculatePrayerTimes fills its result map one prayer at a time. */
  method CalculatePrayerTimes(year: int, month: int, day: int, latitude: real, longitude: real,
                              methodName: string, astro: Astronomy) returns (times: map<string, string>)
    ensures times == PrayerTimeTable(year, month, day, latitude, longitude, methodName, astro)
  {
    var julianDay := JulianDay(year, month, day);
    var declinationAngle := astro.declination(julianDay);
    var equationOfTime := astro.equationOfTime(julianDay);
    times := map[];
    var params := GetCalculationParameters(methodName);
    times := times["Fajr" := FormatTime(MorningTime(astro.hourAngle(params.fajrAngle, latitude, declinationAngle), longitude, equationOfTime))];
    times := times["Sunrise" := FormatTime(MorningTime(astro.hourAngle(SunriseAngle, latitude, declinationAngle), longitude, equationOfTime))];
    times := times["Dhuhr" := FormatTime(NoonTime(longitude, equationOfTime))];
    times := times["Asr" := FormatTime(EveningTime(astro.asrHourAngle(params.asrFactor, latitude, declinationAngle), longitude, equationOfTime))];
    times := times["Maghrib" := FormatTime(EveningTime(astro.hourAngle(params.maghribAngle, latitude, declinationAngle), longitude, equationOfTime))];
    times := times["Isha" := FormatTime(EveningTime(astro.hourAngle(params.ishaAngle, latitude, declinationAngle), longitude, equationOfTime))];
  }

  /** Exactly the six keys, always. */
  lemma TableKeys(year: int, month: int, day: int, latitude: real, longitude: real, methodName: string, astro: Astronomy)
    ensures PrayerTimeTable(year, month, day, latitude, longitude, methodName, astro).Keys == PrayerKeys
  {
  }

  /** Unfolds the table into its six entries, for the lemmas that compare tables. */
  lemma TableEntries(year: int, month: int, day: int, latitude: real, longitude: real, methodName: string,
                     astro: Astronomy)
    ensures var t := PrayerTimeTable(year, month, day, latitude, longitude, methodName, astro);
            var decl := astro.declination(JulianDay(year, month, day));
            var eqt := astro.equationOfTime(JulianDay(year, month, day));
            var p := GetCalculationParameters(methodName);
            && t["Fajr"] == FormatTime(MorningTime(astro.hourAngle(p.fajrAngle, latitude, decl), longitude, eqt))
            && t["Sunrise"] == FormatTime(MorningTime(astro.hourAngle(SunriseAngle, latitude, decl), longitude, eqt))
            && t["Dhuhr"] == FormatTime(NoonTime(longitude, eqt))
            && t["Asr"] == FormatTime(EveningTime(astro.asrHourAngle(p.asrFactor, latitude, decl), longitude, eqt))
            && t["Maghrib"] == FormatTime(EveningTime(astro.hourAngle(p.maghribAngle, latitude, decl), longitude, eqt))
            && t["Isha"] == FormatTime(EveningTime(astro.hourAngle(p.ishaAngle, latitude, decl), longitude, eqt))
  {
    var decl := astro.declination(JulianDay(year, month, day));
    var eqt := astro.equationOfTime(JulianDay(year, month, day));
    var p := GetCalculationParameters(methodName);
    TimesMapEntries(
      FormatTime(MorningTime(astro.hourAngle(p.fajrAngle, latitude, decl), longitude, eqt)),
      FormatTime(MorningTime(astro.hourAngle(SunriseAngle, latitude, decl), longitude, eqt)),
      FormatTime(NoonTime(longitude, eqt)),
      FormatTime(EveningTime(astro.asrHourAngle(p.asrFactor, latitude, decl), longitude, eqt)),
      FormatTime(EveningTime(astro.hourAngle(p.maghribAngle, latitude, decl), longitude, eqt)),
      FormatTime(EveningTime(astro.hourAngle(p.ishaAngle, latitude, decl), longitude, eqt)));
  }

  /** Dhuhr depends on the longitude and the equation of time only, not on latitude or convention. */
  lemma DhuhrIndependent(year: int, month: int, day: int, lat1: real, lat2: real, longitude: real,
                         m1: string, m2: string, astro: Astronomy)
    ensures PrayerTimeTable(year, month, day, lat1, longitude, m1, astro)["Dhuhr"]
         == PrayerTimeTable(year, month, day, lat2, longitude, m2, astro)["Dhuhr"]
    ensures PrayerTimeTable(year, month, day, lat1, longitude, m1, astro)["Dhuhr"]
         == FormatTime(NoonTime(longitude, astro.equationOfTime(JulianDay(year, month, day))))
  {
    TableEntries(year, month, day, lat1, longitude, m1, astro);
    TableEntries(year, month, day, lat2, longitude, m2, astro);
  }

  /** Sunrise, Asr and Maghrib are the same under every convention; only Fajr and Isha can differ. */
  lemma ConventionAffectsOnlyFajrIsha(year: int, month: int, day: int, latitude: real, longitude: real,
                                      m1: string, m2: string, astro: Astronomy)
    ensures var t1 := PrayerTimeTable(year, month, day, latitude, longitude, m1, astro);
            var t2 := PrayerTimeTable(year, month, day, latitude, longitude, m2, astro);
            t1["Sunrise"] == t2["Sunrise"] && t1["Asr"] == t2["Asr"] && t1["Maghrib"] == t2["Maghrib"]
  {
    MethodsShareAsrAndMaghrib(m1, m2);
    TableEntries(year, month, day, latitude, longitude, m1, astro);
    TableEntries(year, month, day, latitude, longitude, m2, astro);
  }
}
