/**
 * The stored records of the prayer-times app: daily prayer and azan times,
 * Islamic events and the single settings row, with the defaults their
 * Kotlin data classes declare.
 */
module Models {
  import opened Wrappers
  import opened Text
  import opened Calendar

  /** One day's prayer times; `date` is "yyyy-MM-dd", each time "HH:mm". */
  datatype PrayerTime = PrayerTime(
    id: int := 0,
    date: string,
    fajr: string,
    dhuhr: string,
    asr: string,
    maghrib: string,
    isha: string,
    isManuallySet: bool := false,
    createdAt: int)

  /** One day's azan (call to prayer) times, in the same formats. */
  datatype AzanTime = AzanTime(
    id: int := 0,
    date: string,
    fajrAzan: string,
    dhuhrAzan: string,
    asrAzan: string,
    maghribAzan: string,
    ishaAzan: string,
    isManuallySet: bool := false,
    createdAt: int)

  datatype EventType =
    | GENERAL
    | EID
    | RAMADAN
    | HAJJ
    | FRIDAY_PRAYER
    | LAYLAT_AL_QADR
    | ASHURA
    | MAWLID

  datatype IslamicEvent = IslamicEvent(
    id: int := 0,
    title: string,
    description: string,
    date: string,
    isImportant: bool := false,
    eventType: EventType := GENERAL,
    isRecurring: bool := false,
    hijriDate: Option<string> := None)

  /** The settings row; `silentModeDuration` is in minutes before a prayer. */
  datatype PrayerSettings = PrayerSettings(
    id: int := 1,
    enableSilentMode: bool := true,
    silentModeDuration: int := 10,
    enableNotifications: bool := true,
    enableAzanSound: bool := true,
    azanVolume: real := 0.8,
    selectedAzanSound: string := "default",
    enableVibration: bool := true,
    autoCalculateTimes: bool := true,
    latitude: real := 0.0,
    longitude: real := 0.0,
    timezone: string := "",
    calculationMethod: string := "ISNA")

  /** `PrayerSettings()` with every field at its declared default. */
  const DefaultSettings: PrayerSettings := PrayerSettings()

  /** The five obligatory prayers, in the order every list of them uses. */
  const FivePrayers: seq<string> := ["Fajr", "Dhuhr", "Asr", "Maghrib", "Isha"]

  /** The (name, time) pairs of a record, in prayer order; Sunrise is not a prayer here. */
  function PrayerList(p: PrayerTime): (ps: seq<(string, string)>)
    ensures |ps| == 5
    ensures forall i :: 0 <= i < 5 ==> ps[i].0 == FivePrayers[i]
  {
    [("Fajr", p.fajr), ("Dhuhr", p.dhuhr), ("Asr", p.asr), ("Maghrib", p.maghrib), ("Isha", p.isha)]
  }

  /** Fallback prayer times used when a time is not known, Fajr first. */
  const DefaultFajr := "05:00"
  const DefaultDhuhr := "12:00"
  const DefaultAsr := "15:30"
  const DefaultMaghrib := "18:00"
  const DefaultIsha := "19:30"

  /** Fallback azan times, five minutes before the fallback prayer times. */
  const DefaultFajrAzan := "04:55"
  const DefaultDhuhrAzan := "11:55"
  const DefaultAsrAzan := "15:25"
  const DefaultMaghribAzan := "17:55"
  const DefaultIshaAzan := "19:25"

  /** A record in the documented "yyyy-MM-dd" / "HH:mm" formats. */
  predicate WellFormedPrayerTime(p: PrayerTime) {
    && IsDateText(p.date)
    && IsClockText(p.fajr) && IsClockText(p.dhuhr) && IsClockText(p.asr)
    && IsClockText(p.maghrib) && IsClockText(p.isha)
  }

  predicate WellFormedAzanTime(a: AzanTime) {
    && IsDateText(a.date)
    && IsClockText(a.fajrAzan) && IsClockText(a.dhuhrAzan) && IsClockText(a.asrAzan)
    && IsClockText(a.maghribAzan) && IsClockText(a.ishaAzan)
  }

  /** The fallback times are themselves well-formed, and each azan default precedes its prayer default by five minutes. */
  lemma DefaultTimesWellFormed()
    ensures IsClockText(DefaultFajr) && IsClockText(DefaultDhuhr) && IsClockText(DefaultAsr)
    ensures IsClockText(DefaultMaghrib) && IsClockText(DefaultIsha)
    ensures IsClockText(DefaultFajrAzan) && ClockMinutes(DefaultFajrAzan) + 5 == ClockMinutes(DefaultFajr)
    ensures IsClockText(DefaultDhuhrAzan) && ClockMinutes(DefaultDhuhrAzan) + 5 == ClockMinutes(DefaultDhuhr)
    ensures IsClockText(DefaultAsrAzan) && ClockMinutes(DefaultAsrAzan) + 5 == ClockMinutes(DefaultAsr)
    ensures IsClockText(DefaultMaghribAzan) && ClockMinutes(DefaultMaghribAzan) + 5 == ClockMinutes(DefaultMaghrib)
    ensures IsClockText(DefaultIshaAzan) && ClockMinutes(DefaultIshaAzan) + 5 == ClockMinutes(DefaultIsha)
  {
  }

  /** The declared defaults of the settings row. */
  lemma DefaultSettingsValues()
    ensures DefaultSettings.id == 1 && DefaultSettings.enableSilentMode
    ensures DefaultSettings.silentModeDuration == 10 && DefaultSettings.autoCalculateTimes
    ensures DefaultSettings.latitude == 0.0 && DefaultSettings.longitude == 0.0
    ensures DefaultSettings.calculationMethod == "ISNA"
  {
  }

  /** A new event is general, unimportant, not recurring and has no hijri date. */
  lemma EventDefaults(title: string, description: string, date: string)
    ensures var e := IslamicEvent(title := title, description := description, date := date);
            e.id == 0 && e.eventType == GENERAL && !e.isImportant && !e.isRecurring && e.hijriDate == None
  {
  }

  /** New prayer and azan records get id 0 (to be generated) and are not manual. */
  lemma RecordDefaults(date: string, t: string, now: int)
    ensures var p := PrayerTime(date := date, fajr := t, dhuhr := t, asr := t, maghrib := t, isha := t, createdAt := now);
            p.id == 0 && !p.isManuallySet
    ensures var a := AzanTime(date := date, fajrAzan := t, dhuhrAzan := t, asrAzan := t, maghribAzan := t, ishaAzan := t, createdAt := now);
            a.id == 0 && !a.isManuallySet
  {
  }
}
