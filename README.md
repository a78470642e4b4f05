# Prayer times and portfolio logic in Dafny

This project models the deterministic core of two programs from one repository.

The first is an Android prayer-times app:

- it computes daily prayer times from a date and a location;
- it stores one prayer record and one azan (call to prayer) record per date;
- it picks the next prayer and shows a countdown to it;
- it lets the user edit single times by hand;
- it silences the phone from a few minutes before each prayer until five minutes after it, using exact alarms or, when those are refused, delayed background work.

The second is a React portfolio site. It validates and sanitises a contact form, and filters a static list of projects by category.

## Modules

| file | module | what it holds |
|---|---|---|
| `wrappers.dfy` | `Wrappers` | `Option` and map lookup |
| `text.dfy` | `Text` | digit texts, `%02d`, the "HH:mm" format and its lenient parse, Kotlin `split` and `toInt` |
| `calendar.dfy` | `Calendar` | Gregorian months and leap years, the next day, month normalisation, the "yyyy-MM-dd" format |
| `models.dfy` | `Models` | the stored records (`PrayerTime`, `AzanTime`, `IslamicEvent`, `EventType`, `PrayerSettings`) with their declared defaults |
| `calculator.dfy` | `Calculator` | Julian Day, the table of calculation methods, `formatTime`, and the six-key time table over an abstract solar model |
| `silent_mode.dfy` | `SilentMode` | the silent window, the alarm slot table and work queue, as a class whose methods are proved against fold functions |
| `view_model.dfy` | `ViewModel` | the view model as a class over date-keyed stores: today's data, settings, next prayer, edits and monthly generation |
| `countdown.dfy` | `Countdown` | the remaining-time text of the home screen |
| `times_edit.dfy` | `TimesEdit` | `parseTime` and the record-building logic of a manual edit |
| `validation.dfy` | `Validation` | trimming, the field checks, the email pattern, the contact form errors, HTML escaping and form formatting |
| `projects.dfy` | `Projects` | the project table, the filter buttons and the component state |

## Modelling conventions

- **Time.** Time is milliseconds since the epoch (`int`). A clock time is minutes since midnight.
  - Placing an "HH:mm" time on today's date (`SilentMode.TodayAt`) keeps the day of `now` and sets the time of day.
  - Pinning the year, month and day keeps an hour of 24 or more on the same day.
  - Time zones and daylight saving are not modelled: a day is always 86 400 000 ms.
- **Storage.** The Room tables are maps.
  - Prayer and azan records are keyed by date, and an insert is a map update at the record's date. This is a modelling choice: Room's REPLACE acts on the autogenerated `id`, and `date` has no unique index (see "## Left out").
  - The settings table is keyed by id. `getSettings` reads id 1. `@Update` changes a row only when its id already exists.
- **Alarms.** A pending alarm is identified by its (prayer name, enable flag) pair. So the alarm table is a map from such pairs to trigger times, and re-scheduling replaces the entry.
- **Solar model.** Sun declination, equation of time and the hour angles are floating-point functions. They are passed in as an `Astronomy` value of total functions. Everything proved about the time table holds for any such functions.
- **Kotlin integers.**
  - `Int` division truncates toward zero (`Calculator.KDiv`).
  - The product `durationMinutes * 60 * 1000` is done in 32-bit `Int` and wraps (`SilentMode.WrapInt`).
  - `Double.toInt` truncates and saturates (`Calculator.DoubleToInt`).
- **JavaScript values.** A form field is `Option<string>`: `None` stands for `undefined` or `null`, and an empty string is falsy.
  - `trim` and the `\s` class use ECMAScript's white-space and line-terminator set.
  - `toLowerCase` is modelled on ASCII letters.

The next-prayer test compares strings, as `calculateNextPrayer` does. `Text.ClockOrder` proves that for well-formed times this agrees with comparing minutes.

## Model

| member | source | states |
|---|---|---|
| Text.NatTextRoundTrip | PrayerTimesApp/app/src/main/java/com/prayertimes/app/ui/fragments/HomeFragment.kt:128-130 | the decimal text of a count reads back as the count, has no leading zero and is one digit exactly below 10 |
| Text.Pad2InRange | PrayerTimesApp/app/src/main/java/com/prayertimes/app/ui/fragments/TimesFragment.kt:93 | `%02d` of 0..99 is two digits whose value is the number |
| Text.ClockTextRoundTrip | PrayerTimesApp/app/src/main/java/com/prayertimes/app/ui/fragments/TimesFragment.kt:93 | the "HH:mm" text of hour 0..23 and minute 0..59 is well-formed and gives back that hour, minute and 60·hour + minute |
| Text.ClockTextCanonical | PrayerTimesApp/app/src/main/java/com/prayertimes/app/data/models/PrayerTime.kt:15 | a well-formed "HH:mm" is the formatted text of its own hour and minute |
| Text.ClockOrder | PrayerTimesApp/app/src/main/java/com/prayertimes/app/ui/MainViewModel.kt:90 | on well-formed "HH:mm" strings the string comparison `>` agrees with comparing minutes since midnight |
| Text.DigitRun | PrayerTimesApp/app/src/main/java/com/prayertimes/app/utils/SilentModeManager.kt:40 | the longest leading run of digits: all digits, and the next character (if any) is not one |
| Text.ParseWellFormedClock | PrayerTimesApp/app/src/main/java/com/prayertimes/app/utils/SilentModeManager.kt:40 | the lenient "HH:mm" parse of a well-formed time gives its minutes since midnight |
| Text.Split | PrayerTimesApp/app/src/main/java/com/prayertimes/app/ui/fragments/TimesFragment.kt:124 | `split(":")` gives at least one piece; a text without the separator is its own single piece |
| Text.SplitFirst | PrayerTimesApp/app/src/main/java/com/prayertimes/app/ui/fragments/TimesFragment.kt:124 | splitting a + sep + b gives a followed by the pieces of b |
| Text.ToIntOrNull | PrayerTimesApp/app/src/main/java/com/prayertimes/app/ui/fragments/TimesFragment.kt:125 | `toInt` succeeds only with a value in the 32-bit range |
| Text.ToIntOfIntText | PrayerTimesApp/app/src/main/java/com/prayertimes/app/ui/fragments/TimesFragment.kt:125 | `toInt` reads back the decimal text of every 32-bit Int, negative ones included |
| Text.ToIntSign | PrayerTimesApp/app/src/main/java/com/prayertimes/app/ui/fragments/TimesFragment.kt:125 | a leading '+' changes nothing; a leading '-' negates, and fails below the Int range |
| Text.ToIntOfPad2 | PrayerTimesApp/app/src/main/java/com/prayertimes/app/ui/fragments/TimesFragment.kt:125 | `toInt` of a `%02d` text gives back the number |
| Calendar.DaysInMonth | PrayerTimesApp/app/src/main/java/com/prayertimes/app/ui/MainViewModel.kt:156 | months have 28..31 days; February has 29 exactly in Gregorian leap years |
| Calendar.NextDay | PrayerTimesApp/app/src/main/java/com/prayertimes/app/ui/MainViewModel.kt:98-100 | the day after a valid date is a valid date |
| Calendar.NextDayNumber | PrayerTimesApp/app/src/main/java/com/prayertimes/app/ui/MainViewModel.kt:98-100 | the day after has a day count one greater |
| ViewModel.ClockOnWellFormed | PrayerTimesApp/app/src/main/java/com/prayertimes/app/ui/MainViewModel.kt:97-100 | on a real day, today's date and the date `add(DAY_OF_MONTH, 1)` gives are both well-formed "yyyy-MM-dd" texts |
| Calendar.NormalizeMonth | PrayerTimesApp/app/src/main/java/com/prayertimes/app/ui/MainViewModel.kt:155 | `set(year, month - 1, 1)` rolls an out-of-range month into the year; an in-range month is kept |
| Calendar.DateTextWellFormed | PrayerTimesApp/app/src/main/java/com/prayertimes/app/ui/MainViewModel.kt:162 | the "yyyy-MM-dd" text of a valid date before year 10000 is well-formed |
| Calendar.DateTextInjective | PrayerTimesApp/app/src/main/java/com/prayertimes/app/ui/MainViewModel.kt:162 | two days of one month have different "yyyy-MM-dd" texts |
| Calculator.MarchShiftRange | PrayerTimesApp/app/src/main/java/com/prayertimes/app/utils/PrayerTimeCalculator.kt:41-43 | for month 1..12, `a` is 1 exactly for January and February, 0 otherwise, and `m` is in 0..11 |
| Calculator.JulianDayEpoch | PrayerTimesApp/app/src/main/java/com/prayertimes/app/utils/PrayerTimeCalculator.kt:40-45 | the Julian Day of 2000-01-01 is 2451545, the epoch used by the solar formulas |
| Calculator.YearTerms | PrayerTimesApp/app/src/main/java/com/prayertimes/app/utils/PrayerTimeCalculator.kt:44 | 365·y + y/4 − y/100 + y/400 counts the days of the first y Gregorian years |
| Calculator.DaysBeforeMonthTable | PrayerTimesApp/app/src/main/java/com/prayertimes/app/utils/PrayerTimeCalculator.kt:44 | the cumulative month lengths agree with summing the days of each month |
| Calculator.MonthTerm | PrayerTimesApp/app/src/main/java/com/prayertimes/app/utils/PrayerTimeCalculator.kt:44 | (153·m + 2)/5 is the number of days from March 1 to the start of the month |
| Calculator.JulianDayIsDayNumber | PrayerTimesApp/app/src/main/java/com/prayertimes/app/utils/PrayerTimeCalculator.kt:40-45 | for years ≥ 1 the Julian Day is a fixed offset from the proleptic Gregorian day count |
| Calculator.JulianDayNextInMonth | PrayerTimesApp/app/src/main/java/com/prayertimes/app/utils/PrayerTimeCalculator.kt:44 | day d + 1 has a Julian Day one greater than day d |
| Calculator.JulianDayNextDay | PrayerTimesApp/app/src/main/java/com/prayertimes/app/utils/PrayerTimeCalculator.kt:40-45 | the Julian Day is continuous across month and year ends, including February 29 |
| Calculator.GetCalculationParameters | PrayerTimesApp/app/src/main/java/com/prayertimes/app/utils/PrayerTimeCalculator.kt:112-122 | every method has Asr factor 1.0 and Maghrib angle −0.833; an unknown name gives the ISNA parameters |
| Calculator.KnownMethodsDistinct | PrayerTimesApp/app/src/main/java/com/prayertimes/app/utils/PrayerTimeCalculator.kt:114-119 | the six named methods have pairwise different parameters, and "ISNA" is an explicit entry |
| Calculator.MethodsShareAsrAndMaghrib | PrayerTimesApp/app/src/main/java/com/prayertimes/app/utils/PrayerTimeCalculator.kt:114-120 | all methods agree on Asr factor and Maghrib angle, so they differ only in the Fajr and Isha angles |
| Calculator.LowerCaseIsFallback | PrayerTimesApp/app/src/main/java/com/prayertimes/app/utils/PrayerTimeCalculator.kt:113-120 | the lookup is case-sensitive: "isna" is not a known method and falls back to the ISNA parameters |
| Calculator.DoubleToIntTruncates | PrayerTimesApp/app/src/main/java/com/prayertimes/app/utils/PrayerTimeCalculator.kt:107-108 | `Double.toInt` truncates toward zero inside the 32-bit range and saturates at its bounds |
| Calculator.FormatTimeWithinDay | PrayerTimesApp/app/src/main/java/com/prayertimes/app/utils/PrayerTimeCalculator.kt:106-110 | for 0 ≤ t < 24 the result is a well-formed "HH:mm" with 60·h + m ≤ 60·t < 60·h + m + 1 |
| Calculator.FormatTimeNoWrap | PrayerTimesApp/app/src/main/java/com/prayertimes/app/utils/PrayerTimeCalculator.kt:106-110 | there is no wrap-around: 24.5 gives "24:30" (not a clock time) and −0.25 gives "00:-15" |
| Calculator.NoonBetween | PrayerTimesApp/app/src/main/java/com/prayertimes/app/utils/PrayerTimeCalculator.kt:64-104 | morning events precede solar noon and evening events follow it, symmetrically, for a non-negative hour angle |
| Calculator.CalculatePrayerTimes | PrayerTimesApp/app/src/main/java/com/prayertimes/app/utils/PrayerTimeCalculator.kt:8-38 | the map filled key by key equals the table of the six formulas, whose keys TableKeys fixes |
| Calculator.TableKeys | PrayerTimesApp/app/src/main/java/com/prayertimes/app/utils/PrayerTimeCalculator.kt:30-35 | the prayer table has exactly the six keys |
| Calculator.DhuhrIndependent | PrayerTimesApp/app/src/main/java/com/prayertimes/app/utils/PrayerTimeCalculator.kt:78-81 | Dhuhr depends only on the date and longitude, not on the latitude or the method |
| Calculator.ConventionAffectsOnlyFajrIsha | PrayerTimesApp/app/src/main/java/com/prayertimes/app/utils/PrayerTimeCalculator.kt:30-35 | Sunrise, Asr and Maghrib do not depend on the method |
| Models.PrayerList | PrayerTimesApp/app/src/main/java/com/prayertimes/app/utils/SilentModeManager.kt:25-31 | the (name, time) pairs of a record are the five prayers in order Fajr, Dhuhr, Asr, Maghrib, Isha |
| Models.DefaultTimesWellFormed | PrayerTimesApp/app/src/main/java/com/prayertimes/app/ui/fragments/TimesFragment.kt:143-171 | the fallback prayer and azan times are well-formed, each azan five minutes before its prayer |
| Models.DefaultSettingsValues | PrayerTimesApp/app/src/main/java/com/prayertimes/app/data/models/PrayerTime.kt:66-81 | the settings row defaults: id 1, silent mode on for 10 minutes, auto-calculation on, location 0.0/0.0, method "ISNA" |
| Models.EventDefaults | PrayerTimesApp/app/src/main/java/com/prayertimes/app/data/models/PrayerTime.kt:41-62 | a new event has id 0, type GENERAL, is neither important nor recurring and has no hijri date |
| Models.RecordDefaults | PrayerTimesApp/app/src/main/java/com/prayertimes/app/data/models/PrayerTime.kt:11-37 | new prayer and azan records have id 0 and are not manually set |
| SilentMode.WrapInt | PrayerTimesApp/app/src/main/java/com/prayertimes/app/utils/SilentModeManager.kt:52 | the 32-bit `Int` product wraps into the `Int` range and is exact inside it |
| SilentMode.WindowLength | PrayerTimesApp/app/src/main/java/com/prayertimes/app/utils/SilentModeManager.kt:52-53 | the window starts d minutes before the prayer and ends 5 minutes after it, so it lasts (d + 5) minutes |
| SilentMode.AllSlotsAreFivePrayers | PrayerTimesApp/app/src/main/java/com/prayertimes/app/utils/SilentModeManager.kt:151-154 | the cancelled slots are exactly the (prayer, flag) pairs of the five prayers |
| SilentMode.AllSlotsCount | PrayerTimesApp/app/src/main/java/com/prayertimes/app/utils/SilentModeManager.kt:151-154 | there are ten such slots |
| SilentMode.DisabledSchedulesNothing | PrayerTimesApp/app/src/main/java/com/prayertimes/app/utils/SilentModeManager.kt:23 | with silent mode disabled nothing is scheduled |
| SilentMode.WorkNeedsFutureTrigger | PrayerTimesApp/app/src/main/java/com/prayertimes/app/utils/SilentModeManager.kt:93-108 | the WorkManager fallback enqueues a request with delay trigger − now only when that delay is positive |
| SilentMode.StartAndEndTogether | PrayerTimesApp/app/src/main/java/com/prayertimes/app/utils/SilentModeManager.kt:52-59 | with exact alarms both slots of the prayer are set (start and end) iff the start is in the future; other prayers' slots and the work queue are untouched |
| SilentMode.FallbackQueuesBoth | PrayerTimesApp/app/src/main/java/com/prayertimes/app/utils/SilentModeManager.kt:56-90 | without exact alarms both the start and the end request are queued iff the start is in the future, and no slot changes |
| SilentMode.UnparseableSkipped | PrayerTimesApp/app/src/main/java/com/prayertimes/app/utils/SilentModeManager.kt:38-63 | a time that does not parse schedules nothing for that prayer |
| SilentMode.UnparseableDoesNotStopOthers | PrayerTimesApp/app/src/main/java/com/prayertimes/app/utils/SilentModeManager.kt:33-40 | an unparseable time has the same effect as leaving that prayer out of the list: the others are still scheduled |
| SilentMode.OnlyPrayersTrans | PrayerTimesApp/app/src/main/java/com/prayertimes/app/utils/SilentModeManager.kt:33-35 | "touches only these prayers" composes across steps |
| SilentMode.StepsOnlyTouchListed | PrayerTimesApp/app/src/main/java/com/prayertimes/app/utils/SilentModeManager.kt:33-35 | scheduling a list changes only slots and queue entries of the prayers in it, and only appends to the queue |
| SilentMode.PrayerListNames | PrayerTimesApp/app/src/main/java/com/prayertimes/app/utils/SilentModeManager.kt:25-31 | the scheduled names are the five prayers |
| SilentMode.ScheduleAllOnlyPrayers | PrayerTimesApp/app/src/main/java/com/prayertimes/app/utils/SilentModeManager.kt:22-36 | scheduling all prayers touches only the five prayers' slots and work |
| SilentMode.ScheduleAllStaysInSlots | PrayerTimesApp/app/src/main/java/com/prayertimes/app/utils/SilentModeManager.kt:73-79 | the alarm table stays within the ten (prayer, flag) slots, so it never holds more than ten alarms and never one for Sunrise |
| SilentMode.CancelAllClears | PrayerTimesApp/app/src/main/java/com/prayertimes/app/utils/SilentModeManager.kt:145-166 | cancelling empties the work queue and every one of the ten slots |
| SilentMode.DoWorkDispatch | PrayerTimesApp/app/src/main/java/com/prayertimes/app/utils/SilentModeManager.kt:171-182 | the worker fails without a prayer name, otherwise enables silence iff the flag is true (missing flag means false) |
| SilentMode.SilentModeManager.constructor | PrayerTimesApp/app/src/main/java/com/prayertimes/app/utils/SilentModeManager.kt:17 | a fresh manager has no alarms and no queued work |
| SilentMode.SilentModeManager.ScheduleWithWorkManager | PrayerTimesApp/app/src/main/java/com/prayertimes/app/utils/SilentModeManager.kt:93-109 | the queue grows by one request exactly when the delay is positive |
| SilentMode.SilentModeManager.ScheduleAlarm | PrayerTimesApp/app/src/main/java/com/prayertimes/app/utils/SilentModeManager.kt:65-91 | an exact alarm replaces the (prayer, flag) slot; otherwise the WorkManager fallback runs |
| SilentMode.SilentModeManager.ScheduleSilentMode | PrayerTimesApp/app/src/main/java/com/prayertimes/app/utils/SilentModeManager.kt:38-63 | parses the time, places it on today and schedules start and end only if the start is in the future |
| SilentMode.SilentModeManager.ScheduleAllSilentModes | PrayerTimesApp/app/src/main/java/com/prayertimes/app/utils/SilentModeManager.kt:22-36 | the loop over the five prayers ends in the state ScheduleAll describes and keeps the slot table within the ten slots |
| SilentMode.SilentModeManager.CancelAllSilentModeAlarms | PrayerTimesApp/app/src/main/java/com/prayertimes/app/utils/SilentModeManager.kt:145-166 | the nested loops remove the ten slots and clear the queue, leaving other entries |
| ViewModel.FirstLaterIndex | PrayerTimesApp/app/src/main/java/com/prayertimes/app/ui/MainViewModel.kt:89-94 | the first index whose time is later than now, none earlier is; none iff no time is later |
| ViewModel.NextPrayerIsAPrayer | PrayerTimesApp/app/src/main/java/com/prayertimes/app/ui/MainViewModel.kt:81-106 | a new next prayer is always one of the five (never Sunrise) and is today's when one is later |
| ViewModel.NextPrayerByMinutes | PrayerTimesApp/app/src/main/java/com/prayertimes/app/ui/MainViewModel.kt:89-94 | for well-formed times the next prayer is the first whose minutes exceed now |
| ViewModel.NextPrayerFallback | PrayerTimesApp/app/src/main/java/com/prayertimes/app/ui/MainViewModel.kt:96-106 | when none is later it is tomorrow's Fajr if tomorrow has a record, otherwise the previous value is kept |
| ViewModel.DefaultSettingsBlockGeneration | PrayerTimesApp/app/src/main/java/com/prayertimes/app/data/models/PrayerTime.kt:77-78 | no settings or the default settings (location 0.0/0.0) disable monthly generation |
| ViewModel.RecordFallbacks | PrayerTimesApp/app/src/main/java/com/prayertimes/app/ui/MainViewModel.kt:174-182 | a generated record is not manual and takes 05:00/12:00/15:30/18:00/19:30 for any missing key |
| ViewModel.GeneratedRecordFields | PrayerTimesApp/app/src/main/java/com/prayertimes/app/ui/MainViewModel.kt:167-182 | a generated record holds the calculator's five times and a well-formed date |
| ViewModel.MissingDays | PrayerTimesApp/app/src/main/java/com/prayertimes/app/ui/MainViewModel.kt:160-166 | the generated days lie in 1..daysInMonth in strictly increasing order |
| ViewModel.MissingDaysExactly | PrayerTimesApp/app/src/main/java/com/prayertimes/app/ui/MainViewModel.kt:160-166 | a day is generated iff it is in the month and its date has no record |
| ViewModel.MonthRecordsAt | PrayerTimesApp/app/src/main/java/com/prayertimes/app/ui/MainViewModel.kt:158-186 | the i-th collected record is the computed record of the i-th missing day |
| ViewModel.MonthRecordsStep | PrayerTimesApp/app/src/main/java/com/prayertimes/app/ui/MainViewModel.kt:160-185 | one more day appends that day's computed record exactly when its date has no record |
| ViewModel.MonthRecordDate | PrayerTimesApp/app/src/main/java/com/prayertimes/app/ui/MainViewModel.kt:160-175 | the i-th collected record is dated with the i-th missing day, a day in 1..daysInMonth |
| ViewModel.InsertAllContents | PrayerTimesApp/app/src/main/java/com/prayertimes/app/ui/MainViewModel.kt:189 | after the batch insert a date is present iff it was or a new record has it; untouched dates keep their record |
| ViewModel.GenerationNeverOverwrites | PrayerTimesApp/app/src/main/java/com/prayertimes/app/ui/MainViewModel.kt:160-191 | monthly generation keeps every existing record and adds dates only from this month |
| ViewModel.OneRecordPerDay | PrayerTimesApp/app/src/main/java/com/prayertimes/app/ui/MainViewModel.kt:160-186 | no two generated records share a date |
| ViewModel.MainViewModel.constructor | PrayerTimesApp/app/src/main/java/com/prayertimes/app/ui/MainViewModel.kt:45-48 | initialisation loads today's records and next prayer, and the settings row (default if absent) |
| ViewModel.MainViewModel.LoadTodayData | PrayerTimesApp/app/src/main/java/com/prayertimes/app/ui/MainViewModel.kt:50-69 | today's prayer and azan records become current and the next prayer is recomputed when a record exists |
| ViewModel.MainViewModel.LoadSettings | PrayerTimesApp/app/src/main/java/com/prayertimes/app/ui/MainViewModel.kt:71-77 | the settings are the stored row 1 or the defaults, and are written back |
| ViewModel.MainViewModel.CalculateNextPrayer | PrayerTimesApp/app/src/main/java/com/prayertimes/app/ui/MainViewModel.kt:79-107 | the loop with early return sets the next prayer the specification function gives |
| ViewModel.MainViewModel.UpdatePrayerTime | PrayerTimesApp/app/src/main/java/com/prayertimes/app/ui/MainViewModel.kt:109-122 | the record is stored by date and made current, the next prayer is recomputed, and silent modes are scheduled iff settings are loaded with silent mode on |
| ViewModel.MainViewModel.UpdateAzanTime | PrayerTimesApp/app/src/main/java/com/prayertimes/app/ui/MainViewModel.kt:124-129 | the azan record is stored by date and made current; nothing else changes |
| ViewModel.MainViewModel.UpdateSettings | PrayerTimesApp/app/src/main/java/com/prayertimes/app/ui/MainViewModel.kt:140-145 | an update changes the stored row only if its id exists; the loaded settings become the new ones |
| ViewModel.MainViewModel.CalculateDayRecord | PrayerTimesApp/app/src/main/java/com/prayertimes/app/ui/MainViewModel.kt:167-182 | the record built for a day is the computed record of that day, dated with it |
| ViewModel.MainViewModel.CollectMissingRecords | PrayerTimesApp/app/src/main/java/com/prayertimes/app/ui/MainViewModel.kt:158-186 | the day loop collects exactly the computed records of the missing days, in day order |
| ViewModel.MainViewModel.GeneratePrayerTimesForMonth | PrayerTimesApp/app/src/main/java/com/prayertimes/app/ui/MainViewModel.kt:147-193 | nothing changes unless generation is enabled; then the missing days are computed and inserted, and today is reloaded only if something was inserted |
| Countdown.MillisUntilIsNextOccurrence | PrayerTimesApp/app/src/main/java/com/prayertimes/app/ui/fragments/HomeFragment.kt:113-123 | the difference to the prayer is in (0, 24 h] and lands on the prayer's time of day |
| Countdown.MillisUntilUnique | PrayerTimesApp/app/src/main/java/com/prayertimes/app/ui/fragments/HomeFragment.kt:119-123 | it is the only such difference: the next occurrence, not a later one |
| Countdown.CountdownParts | PrayerTimesApp/app/src/main/java/com/prayertimes/app/ui/fragments/HomeFragment.kt:124-125 | minutes are in 0..59, hours in 0..24 and 60·hours + minutes = diff div 60000 |
| Countdown.CountdownTextUnderAnHour | PrayerTimesApp/app/src/main/java/com/prayertimes/app/ui/fragments/HomeFragment.kt:127-131 | under an hour the text is "<m>m" with m the whole minutes |
| Countdown.CountdownTextWithHours | PrayerTimesApp/app/src/main/java/com/prayertimes/app/ui/fragments/HomeFragment.kt:127-131 | from an hour on the text is "<h>h <m>m" without zero padding |
| Countdown.UnparseableGivesEmpty | PrayerTimesApp/app/src/main/java/com/prayertimes/app/ui/fragments/HomeFragment.kt:111-136 | an unparseable time gives "" |
| Countdown.CalculateTimeRemaining | PrayerTimesApp/app/src/main/java/com/prayertimes/app/ui/fragments/HomeFragment.kt:106-137 | computes the remaining-time text the lemmas above describe |
| TimesEdit.ParseFormattedTime | PrayerTimesApp/app/src/main/java/com/prayertimes/app/ui/fragments/TimesFragment.kt:122-129 | parsing a "%02d:%02d" text gives back the hour 0..23 and minute 0..59 |
| TimesEdit.ParseWithoutColon | PrayerTimesApp/app/src/main/java/com/prayertimes/app/ui/fragments/TimesFragment.kt:124-128 | a text without ":" parses to (12, 0) |
| TimesEdit.ParseBadPiece | PrayerTimesApp/app/src/main/java/com/prayertimes/app/ui/fragments/TimesFragment.kt:125-128 | a text whose first or second piece is not an integer parses to (12, 0) |
| TimesEdit.ParseIgnoresRest | PrayerTimesApp/app/src/main/java/com/prayertimes/app/ui/fragments/TimesFragment.kt:124-125 | pieces after the second are ignored |
| TimesEdit.SplitPieces | PrayerTimesApp/app/src/main/java/com/prayertimes/app/ui/fragments/TimesFragment.kt:124 | the first two pieces of a + ":" + b + rest are a and b |
| TimesEdit.EditExistingPrayer | PrayerTimesApp/app/src/main/java/com/prayertimes/app/ui/fragments/TimesFragment.kt:136-141 | editing a prayer of an existing record changes only that time and sets isManuallySet; id, date and the other times stay |
| TimesEdit.EditWithoutRecord | PrayerTimesApp/app/src/main/java/com/prayertimes/app/ui/fragments/TimesFragment.kt:143-151 | without a record a new one for today has the new time in that field and the defaults elsewhere, marked manual |
| TimesEdit.EditUnknownPrayer | PrayerTimesApp/app/src/main/java/com/prayertimes/app/ui/fragments/TimesFragment.kt:142-151 | an unknown prayer name yields a fresh all-defaults record even when one exists |
| TimesEdit.EditPrayerWellFormed | PrayerTimesApp/app/src/main/java/com/prayertimes/app/ui/fragments/TimesFragment.kt:136-151 | edits keep prayer records well-formed |
| TimesEdit.EditExistingAzan | PrayerTimesApp/app/src/main/java/com/prayertimes/app/ui/fragments/TimesFragment.kt:156-161 | the same rule for azan records |
| TimesEdit.EditAzanWithoutRecord | PrayerTimesApp/app/src/main/java/com/prayertimes/app/ui/fragments/TimesFragment.kt:163-171 | a new azan record uses the defaults 04:55/11:55/15:25/17:55/19:25 |
| TimesEdit.EditUnknownAzan | PrayerTimesApp/app/src/main/java/com/prayertimes/app/ui/fragments/TimesFragment.kt:162-171 | an unknown name yields a fresh all-defaults azan record |
| TimesEdit.EditAzanWellFormed | PrayerTimesApp/app/src/main/java/com/prayertimes/app/ui/fragments/TimesFragment.kt:156-171 | edits keep azan records well-formed |
| TimesEdit.UpdateTime | PrayerTimesApp/app/src/main/java/com/prayertimes/app/ui/fragments/TimesFragment.kt:131-175 | a prayer edit stores the edited record by its date, makes it current, recomputes the next prayer and reschedules silent mode when enabled, leaving azan data and settings alone; an azan edit stores and shows the edited azan record and leaves prayers, the next prayer, settings and alarms unchanged |
| Validation.TrimShape | src/utils/validation.js:8 | `trim` removes exactly the leading and trailing white space |
| Validation.TrimIdempotent | src/utils/validation.js:8 | trimming twice is trimming once |
| Validation.RequiredIffNonBlank | src/utils/validation.js:7-9 | validateRequired holds iff the value is present and its trim is non-empty |
| Validation.MinLengthImpliesRequired | src/utils/validation.js:7-13 | a minimum length of at least 1 implies required |
| Validation.MaxLengthInclusive | src/utils/validation.js:15-17 | the maximum accepts a missing or empty value and is inclusive |
| Validation.IndexOf | src/utils/validation.js:3 | the first position of a character, or the length when absent |
| Validation.ValidateEmailIsPattern | src/utils/validation.js:2-5 | the computed email check accepts exactly the language of /^[^\s@]+@[^\s@]+\.[^\s@]+$/ |
| Validation.ValidEmailShape | src/utils/validation.js:3 | a valid email has no white space and exactly one "@", after a non-empty local part |
| Validation.LengthErrorNone | src/utils/validation.js:23-29 | a field has no error iff it is present with a trimmed length in the bounds |
| Validation.FormValidIff | src/utils/validation.js:19-59 | no errors iff name 2..50, email present and valid, subject 5..100, message 10..1000 |
| Validation.RequiredTakesPrecedence | src/utils/validation.js:23-54 | only the four field keys occur, and a missing or blank field gets the "required" message |
| Validation.FiftyCharacterNameAccepted | src/utils/validation.js:27-28 | a name of exactly 50 characters passes despite "less than 50" |
| Validation.ValidateContactForm | src/utils/validation.js:19-60 | the errors are the field-by-field result and isValid iff there are none |
| Validation.ReplaceAppend | src/utils/validation.js:66-71 | a global replace distributes over concatenation |
| Validation.SanitizeIsEscape | src/utils/validation.js:63-72 | the five replaces equal a single pass escaping each character |
| Validation.SanitizeSafe | src/utils/validation.js:63-72 | the result holds none of < > " ' /, and text without them is returned unchanged |
| Validation.SanitizeIdempotent | src/utils/validation.js:63-72 | sanitizing twice is sanitizing once |
| Validation.SanitizeNotInjective | src/utils/validation.js:63-72 | "&" is not escaped, so "<" and "&lt;" sanitize alike |
| Validation.Lower | src/utils/validation.js:78 | an ASCII lowercase changes each character on its own |
| Validation.FormatFields | src/utils/validation.js:75-82 | each field is the escape of the trimmed value, email lowercased first; missing fields stay missing |
| Validation.FormatTextFieldsIdempotent | src/utils/validation.js:75-82 | formatting twice leaves name, subject and message as formatted once |
| Validation.FormatEmailNotIdempotent | src/utils/validation.js:78 | the email is not: "/" becomes "&#x2F;" and a second pass lowercases it to "&#x2f;" |
| Projects.WithCategory | src/components/Projects.jsx:102 | the filter never grows the list |
| Projects.WithCategoryMembers | src/components/Projects.jsx:102 | the filtered list holds exactly the projects of the category |
| Projects.WithCategoryAppend | src/components/Projects.jsx:102 | filtering distributes over concatenation, so the original order is kept |
| Projects.WithCategoryIdempotent | src/components/Projects.jsx:102 | filtering a filtered list again changes nothing |
| Projects.FilterMeaning | src/components/Projects.jsx:97-104 | "all" shows the full list in order; any other id exactly the projects of that category |
| Projects.WebResult | src/components/Projects.jsx:16-83 | "web" shows projects 1, 3, 4, 6 in that order |
| Projects.MobileResult | src/components/Projects.jsx:16-83 | "mobile" shows projects 2, 5 in that order |
| Projects.BackendResult | src/components/Projects.jsx:244-252 | "backend" shows nothing, so "No projects found" appears |
| Projects.FiltersCoverCategories | src/components/Projects.jsx:16-90 | every project's category has a button |
| Projects.ProjectsView.constructor | src/components/Projects.jsx:12-13 | the initial state is filter "all" with an empty list |
| Projects.ProjectsView.OnMount | src/components/Projects.jsx:92-95 | the mount effect shows the full list |
| Projects.ProjectsView.HandleFilterChange | src/components/Projects.jsx:97-104 | the id becomes active and the list is recomputed from the full table, empty iff no project has that category |

## Left out

- Solar trigonometry: `getSunDeclination`, `getEquationOfTime` and the hour-angle formulas are IEEE floating point. They are the opaque `Calculator.Astronomy` functions, so no numeric prayer time is computed or checked. This includes the sign of the sunrise angle and the MAKKAH Isha angle of 90.
- Calculator.JulianDay: it is an integer. `getJulianDay` adds `1721119.0` as a `Double` after integer arithmetic, so the values agree. The `Date`-to-calendar extraction is an explicit (year, month, day) input.
- Calendar.DaysInMonth: applies the Gregorian leap rule to every year. `Calendar.getInstance()` returns a `GregorianCalendar`, which uses the Julian rule before October 1582 and skips 5..14 October 1582. So February 1500 has 29 days there and 28 here. The Julian Day facts and `Calendar.NextDay` share this restriction.
- ViewModel.MainViewModel.GeneratePrayerTimesForMonth: it requires the normalised year to be at least 1. For years before 1583 the source's month lengths and date texts follow the Julian calendar, so the generated days differ from the model's there (February of a century year such as 1500, and October 1582). Dates are formatted with four-digit years, as `SimpleDateFormat` does for years 1..9999.
- SimpleDateFormat "HH:mm" parsing is modelled as digits, ':', digits, with trailing text ignored. Locale-specific digits and the parser's other leniencies are not modelled.
- Room's autogenerated ids are not modelled: the prayer and azan stores are keyed by date. `createdAt` is the caller-supplied clock reading.
- ViewModel.MainViewModel.UpdatePrayerTime: the model replaces the record of the same date. Room's REPLACE resolves conflicts on the autogenerated id only. A fresh id-0 record for a date that already has a row (as `TimesEdit.EditUnknownPrayer` builds when today's record is loaded) therefore adds a second row. `getPrayerTimeByDate` (`LIMIT 1`, no `ORDER BY`) may then go on returning the old row. The model always has one record per date.
- ViewModel.MainViewModel.UpdateAzanTime: the same difference for azan records and `getAzanTimeByDate`.
- Islamic events: `todayEvents`, `addIslamicEvent`, `refreshTodayData` and the event DAO queries are not modelled beyond the `IslamicEvent` record and its defaults. They only move events between the store and the screen.
- Coroutines and LiveData: each `viewModelScope.launch` body runs to completion at once and in call order; interleavings of concurrent launches are not modelled.
- The clock (`Date()`, `System.currentTimeMillis()`, `Calendar.getInstance()`) is a parameter (`ViewModel.Clock`, `now`).
- Android platform calls are left out: `AlarmManager`, `PendingIntent` request-code hashing (the ten name+flag strings are taken to have distinct hashes), `WorkManager` tags, and the `AudioManager`/`NotificationManager` calls behind `enableSilentMode` and `disableSilentMode`.
  - The exact-alarm `SecurityException` becomes a manager-wide flag, `exactAlarmsAllowed`.
  - The worker's effect becomes the `SilentMode.WorkOutcome` it chooses.
- SilentMode.WindowLength: it states the window length only for durations of at most 35 791 minutes. Above that the 32-bit product wraps, and `WrapInt` models that case separately.
- SilentMode.FallbackQueuesBoth: it assumes a duration above −5 minutes, so that the end request follows the start, and at most 35 791 minutes, so that the 32-bit window product does not wrap (see the SilentMode.WindowLength line).
- Calculator.DoubleToInt: works on real numbers, which have no NaN or infinity. When the sun never reaches a prayer's angle (an 18° Fajr or Isha at 52°N in June), `acos` gives NaN. Kotlin's `NaN.toInt()` is 0, so the source's `formatTime` prints "00:00" for that prayer. The abstract hour angle always returns a real, so this case is not represented.
- Calculator.FormatTimeWithinDay: the minute product `(time - hours) * 60` is exact in the model. In `Double` it is rounded and can round up to the next whole number at a minute boundary. For example, the `Double` nearest 4 h 46 min is 4.7666666666666666074…; Kotlin's product rounds to 46.0 and prints "04:46", while the exact product gives "04:45". So the bound 60·hour + minute ≤ 60·time holds for real inputs, not for every `Double`.
- Calculator.DoubleToIntTruncates: states truncation and saturation for real values only; Kotlin's NaN → 0 conversion is not stated (see `Calculator.DoubleToInt`).
- Text.ToIntOrNull: accepts ASCII digits only. Kotlin's `toInt` (`Integer.parseInt`) also accepts other Unicode decimal digits, such as Arabic-Indic ones, which the model rejects.
- Text.Pad2 and Calendar.DateText: formatting is taken in a locale with ASCII digits. `String.format` and `SimpleDateFormat` with the default locale print that locale's digits (in Arabic or Persian locales, for instance), which the model does not produce.
- Countdown.CalculateTimeRemaining: uses unbounded integers. The Kotlin `Long` arithmetic cannot overflow for real clock values.
- UI: the time picker, `getCurrentTime` (which reads on-screen text) and the view bindings are left out. Only the parse and record building of `TimesFragment` are modelled.
- JavaScript's regular-expression engine is replaced by the computed check `Validation.ValidateEmail`, which is proved equal to the pattern's language. String lengths count Unicode scalar values, not UTF-16 code units.
- Validation.LowerChar: lowercases ASCII letters only. JavaScript's `toLowerCase` also maps non-ASCII letters.
- Projects: the descriptions and image paths of the projects, and all rendering and animation, are left out.
