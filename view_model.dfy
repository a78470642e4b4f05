/**
 * MainViewModel: the app's state holder.  The Room tables become maps
 * (prayer and azan records keyed by date, the settings row keyed by id),
 * the LiveData values become fields, and the wall clock is a `Clock`
 * argument.
 */
module ViewModel {
  import opened Wrappers
  import opened Text
  import opened Calendar
  import opened Models
  import opened Calculator
  import opened SilentMode

  /** What the view model reads from the clock: today's and tomorrow's "yyyy-MM-dd", the current "HH:mm", local milliseconds. */
  datatype Clock = Clock(today: string, tomorrow: string, timeOfDay: string, millis: int)

  /**
   * A clock read on the day (y, m, d): `today` is that date's text and
   * `tomorrow` the text of the day `add(DAY_OF_MONTH, 1)` moves to.
   */
  predicate ClockOn(clock: Clock, y: nat, m: int, d: int)
    requires IsDate(y, m, d)
  {
    var (y', m', d') := NextDay(y, m, d);
    clock.today == DateText(y, m, d) && clock.tomorrow == DateText(y', m', d')
  }

  /** On a day before the year 9999 ends, both dates the clock gives are well-formed "yyyy-MM-dd" texts. */
  lemma ClockOnWellFormed(clock: Clock, y: nat, m: int, d: int)
    requires IsDate(y, m, d) && y < 9999 && ClockOn(clock, y, m, d)
    ensures IsDateText(clock.today) && IsDateText(clock.tomorrow)
  {
    var (y', m', d') := NextDay(y, m, d);
    DateTextWellFormed(y, m, d);
    DateTextWellFormed(y', m', d');
  }

  /** The settings row is the one with id 1. */
  const SettingsId := 1

  /** Index of the first pair whose time sorts strictly after `now`. */
  function FirstLaterIndex(ps: seq<(string, string)>, now: string): (r: Option<nat>)
    ensures r.Some? ==> r.value < |ps| && LexLess(now, ps[r.value].1)
    ensures r.Some? ==> forall j :: 0 <= j < r.value ==> !LexLess(now, ps[j].1)
    ensures r.None? <==> forall j :: 0 <= j < |ps| ==> !LexLess(now, ps[j].1)
  {
    if ps == [] then None
    else if LexLess(now, ps[0].1) then Some(0)
    else match FirstLaterIndex(ps[1..], now)
      case None => None
      case Some(i) => Some(i + 1)
  }

  /**
   * calculateNextPrayer: the first of the five prayers later than now;
   * otherwise tomorrow's Fajr if tomorrow has a record; otherwise the
   * previous value stays.
   */
  function NextPrayer(previous: Option<(string, string)>, p: PrayerTime, clock: Clock,
                      store: map<string, PrayerTime>): Option<(string, string)>
  {
    var ps := PrayerList(p);
    match FirstLaterIndex(ps, clock.timeOfDay)
    case Some(i) => Some(ps[i])
    case None =>
      match Lookup(store, clock.tomorrow)
      case Some(t) => Some(("Fajr", t.fajr))
      case None => previous
  }

  /** A new next prayer is always one of the five, never Sunrise, and carries that prayer's time. */
  lemma NextPrayerIsAPrayer(previous: Option<(string, string)>, p: PrayerTime, clock: Clock, store: map<string, PrayerTime>)
    ensures var r := NextPrayer(previous, p, clock, store);
            r != previous ==> r.Some? && r.value.0 in FivePrayers && r.value.0 != "Sunrise"
    ensures var r := NextPrayer(previous, p, clock, store);
            FirstLaterIndex(PrayerList(p), clock.timeOfDay).Some? ==> r.Some? && r.value in PrayerList(p)
  {
  }

  /**
   * For records and clock in the documented "HH:mm" form the string test
   * picks the first prayer whose minute of the day is after the current one.
   */
  lemma NextPrayerByMinutes(previous: Option<(string, string)>, p: PrayerTime, clock: Clock, store: map<string, PrayerTime>, i: nat)
    requires WellFormedPrayerTime(p) && IsClockText(clock.timeOfDay)
    requires i < 5
    requires ClockMinutes(clock.timeOfDay) < ClockMinutes(PrayerList(p)[i].1)
    requires forall j :: 0 <= j < i ==> ClockMinutes(PrayerList(p)[j].1) <= ClockMinutes(clock.timeOfDay)
    ensures NextPrayer(previous, p, clock, store) == Some(PrayerList(p)[i])
  {
    var ps := PrayerList(p);
    forall j | 0 <= j < 5
      ensures LexLess(clock.timeOfDay, ps[j].1) <==> ClockMinutes(clock.timeOfDay) < ClockMinutes(ps[j].1)
    {
      ClockOrder(clock.timeOfDay, ps[j].1);
    }
  }

  /** When every prayer is at or before now, the answer comes from tomorrow's record or stays as it was. */
  lemma NextPrayerFallback(previous: Option<(string, string)>, p: PrayerTime, clock: Clock, store: map<string, PrayerTime>)
    requires WellFormedPrayerTime(p) && IsClockText(clock.timeOfDay)
    requires forall j :: 0 <= j < 5 ==> ClockMinutes(PrayerList(p)[j].1) <= ClockMinutes(clock.timeOfDay)
    ensures NextPrayer(previous, p, clock, store)
            == if clock.tomorrow in store then Some(("Fajr", store[clock.tomorrow].fajr)) else previous
  {
    var ps := PrayerList(p);
    forall j | 0 <= j < 5
      ensures !LexLess(clock.timeOfDay, ps[j].1)
    {
      ClockOrder(clock.timeOfDay, ps[j].1);
    }
  }

  /** The next prayer after loadTodayData: recomputed from today's record if there is one. */
  function NextAfterReload(previous: Option<(string, string)>, store: map<string, PrayerTime>, clock: Clock): Option<(string, string)> {
    match Lookup(store, clock.today)
    case Some(p) => NextPrayer(previous, p, clock, store)
    case None => previous
  }

  /** Monthly generation runs only with loaded settings, automatic calculation on and a non-zero location. */
  predicate GenerationEnabled(settings: Option<PrayerSettings>) {
    && settings.Some?
    && settings.value.autoCalculateTimes
    && settings.value.latitude != 0.0
    && settings.value.longitude != 0.0
  }

  /** The default settings row sits at latitude and longitude 0.0, so it never generates. */
  lemma DefaultSettingsBlockGeneration()
    ensures !GenerationEnabled(Some(DefaultSettings))
    ensures !GenerationEnabled(None)
  {
  }

  /** A record built from a calculator map, with the fixed fallbacks for missing keys. */
  function RecordFromTimes(date: string, times: map<string, string>, millis: int): PrayerTime {
    PrayerTime(
      date := date,
      fajr := Lookup(times, "Fajr").GetOr(DefaultFajr),
      dhuhr := Lookup(times, "Dhuhr").GetOr(DefaultDhuhr),
      asr := Lookup(times, "Asr").GetOr(DefaultAsr),
      maghrib := Lookup(times, "Maghrib").GetOr(DefaultMaghrib),
      isha := Lookup(times, "Isha").GetOr(DefaultIsha),
      isManuallySet := false,
      createdAt := millis)
  }

  /** The record generated for one day. */
  function GeneratedRecord(y: nat, m: int, day: int, s: PrayerSettings, astro: Astronomy, millis: int): PrayerTime {
    RecordFromTimes(DateText(y, m, day), PrayerTimeTable(y, m, day, s.latitude, s.longitude, s.calculationMethod, astro), millis)
  }

  /** Each missing key falls back to its fixed default, and the record is never marked as set by hand. */
  lemma RecordFallbacks(date: string, times: map<string, string>, millis: int)
    ensures var r := RecordFromTimes(date, times, millis);
            && !r.isManuallySet && r.id == 0 && r.date == date
            && r.fajr == (if "Fajr" in times then times["Fajr"] else "05:00")
            && r.dhuhr == (if "Dhuhr" in times then times["Dhuhr"] else "12:00")
            && r.asr == (if "Asr" in times then times["Asr"] else "15:30")
            && r.maghrib == (if "Maghrib" in times then times["Maghrib"] else "18:00")
            && r.isha == (if "Isha" in times then times["Isha"] else "19:30")
  {
  }

  /** The days among 1..n whose date has no record yet, in increasing order. */
  function MissingDays(store: map<string, PrayerTime>, y: nat, m: int, n: nat): (ds: seq<int>)
    ensures forall i :: 0 <= i < |ds| ==> 1 <= ds[i] <= n
    ensures forall i, j :: 0 <= i < j < |ds| ==> ds[i] < ds[j]
  {
    if n == 0 then []
    else MissingDays(store, y, m, n - 1) + (if DateText(y, m, n) in store then [] else [n])
  }

  /** A day is generated iff it lies in 1..n and its date has no record. */
  lemma {:induction false} MissingDaysExactly(store: map<string, PrayerTime>, y: nat, m: int, n: nat, d: int)
    ensures d in MissingDays(store, y, m, n) <==> 1 <= d <= n && DateText(y, m, d) !in store
  {
    if n > 0 {
      MissingDaysExactly(store, y, m, n - 1, d);
      var pds := MissingDays(store, y, m, n - 1);
      if DateText(y, m, n) in store {
        assert MissingDays(store, y, m, n) == pds;
      } else {
        assert MissingDays(store, y, m, n) == pds + [n];
        assert d in pds + [n] <==> d in pds || d == n;
      }
    }
  }

  /** The records computed for the given days, in the same order. */
  function RecordsFor(ds: seq<int>, gen: int -> PrayerTime): (rs: seq<PrayerTime>)
    ensures |rs| == |ds|
  {
    if ds == [] then []
    else RecordsFor(ds[..|ds| - 1], gen) + [gen(ds[|ds| - 1])]
  }

  lemma {:induction false} RecordsForAt(ds: seq<int>, gen: int -> PrayerTime, i: nat)
    requires i < |ds|
    ensures RecordsFor(ds, gen)[i] == gen(ds[i])
  {
    if i < |ds| - 1 {
      RecordsForAt(ds[..|ds| - 1], gen, i);
    }
  }

  lemma RecordsForSnoc(ds: seq<int>, d: int, gen: int -> PrayerTime)
    ensures RecordsFor(ds + [d], gen) == RecordsFor(ds, gen) + [gen(d)]
  {
    assert (ds + [d])[..|ds|] == ds;
  }

  /** The records monthly generation collects for days 1..n: one computed record per missing day. */
  function MonthRecords(store: map<string, PrayerTime>, y: nat, m: int, n: nat, s: PrayerSettings, astro: Astronomy,
                        millis: int): (rs: seq<PrayerTime>)
    ensures |rs| == |MissingDays(store, y, m, n)|
  {
    RecordsFor(MissingDays(store, y, m, n), day => GeneratedRecord(y, m, day, s, astro, millis))
  }

  /** The i-th collected record is the computed record of the i-th missing day. */
  lemma MonthRecordsAt(store: map<string, PrayerTime>, y: nat, m: int, n: nat, s: PrayerSettings,
                       astro: Astronomy, millis: int, i: nat)
    requires i < |MonthRecords(store, y, m, n, s, astro, millis)|
    ensures i < |MissingDays(store, y, m, n)|
    ensures MonthRecords(store, y, m, n, s, astro, millis)[i]
            == GeneratedRecord(y, m, MissingDays(store, y, m, n)[i], s, astro, millis)
  {
    RecordsForAt(MissingDays(store, y, m, n), day => GeneratedRecord(y, m, day, s, astro, millis), i);
  }

  lemma RecordsForStep(store: map<string, PrayerTime>, y: nat, m: int, n: nat, gen: int -> PrayerTime)
    requires n > 0
    ensures RecordsFor(MissingDays(store, y, m, n), gen)
            == RecordsFor(MissingDays(store, y, m, n - 1), gen) + (if DateText(y, m, n) in store then [] else [gen(n)])
  {
    var pds := MissingDays(store, y, m, n - 1);
    if DateText(y, m, n) in store {
      assert MissingDays(store, y, m, n) == pds;
    } else {
      assert MissingDays(store, y, m, n) == pds + [n];
      RecordsForSnoc(pds, n, gen);
    }
  }

  /** One more day extends the collected list by that day's record exactly when the day is missing. */
  lemma MonthRecordsStep(store: map<string, PrayerTime>, y: nat, m: int, n: nat, s: PrayerSettings,
                         astro: Astronomy, millis: int)
    requires n > 0
    ensures MonthRecords(store, y, m, n, s, astro, millis)
            == MonthRecords(store, y, m, n - 1, s, astro, millis)
               + (if DateText(y, m, n) in store then [] else [GeneratedRecord(y, m, n, s, astro, millis)])
  {
    RecordsForStep(store, y, m, n, day => GeneratedRecord(y, m, day, s, astro, millis));
  }

  /** insertPrayerTimes: each record replaces the record of its date. */
  function InsertAll(store: map<string, PrayerTime>, rs: seq<PrayerTime>): map<string, PrayerTime>
    decreases |rs|
  {
    if rs == [] then store
    else InsertAll(store, rs[..|rs| - 1])[rs[|rs| - 1].date := rs[|rs| - 1]]
  }

  lemma {:induction false} InsertAllContents(store: map<string, PrayerTime>, rs: seq<PrayerTime>, date: string)
    ensures date in InsertAll(store, rs) <==> date in store || exists i :: 0 <= i < |rs| && rs[i].date == date
    ensures (forall i :: 0 <= i < |rs| ==> rs[i].date != date) && date in store ==> InsertAll(store, rs)[date] == store[date]
    decreases |rs|
  {
    if rs != [] {
      var init := rs[..|rs| - 1];
      InsertAllContents(store, init, date);
      if date != rs[|rs| - 1].date && (exists i :: 0 <= i < |rs| && rs[i].date == date) {
        var i :| 0 <= i < |rs| && rs[i].date == date;
        assert init[i].date == date;
      }
    }
  }

  /**
   * Monthly generation never touches a date that already has a record,
   * whether set by hand or computed, and adds exactly the missing days.
   */
  lemma GenerationNeverOverwrites(store: map<string, PrayerTime>, y: nat, m: int, n: nat, s: PrayerSettings,
                                  astro: Astronomy, millis: int, date: string)
    ensures var after := InsertAll(store, MonthRecords(store, y, m, n, s, astro, millis));
            && (date in store ==> date in after && after[date] == store[date])
            && (date in after <==> date in store || exists d :: 1 <= d <= n && DateText(y, m, d) == date)
  {
    var rs := MonthRecords(store, y, m, n, s, astro, millis);
    var ds := MissingDays(store, y, m, n);
    InsertAllContents(store, rs, date);
    if date in store {
      forall i | 0 <= i < |rs|
        ensures rs[i].date != date
      {
        MonthRecordDate(store, y, m, n, s, astro, millis, i);
        MissingDaysExactly(store, y, m, n, ds[i]);
      }
    }
    if exists d :: 1 <= d <= n && DateText(y, m, d) == date {
      var d :| 1 <= d <= n && DateText(y, m, d) == date;
      MissingDaysExactly(store, y, m, n, d);
      if date !in store {
        var i :| 0 <= i < |ds| && ds[i] == d;
        MonthRecordDate(store, y, m, n, s, astro, millis, i);
      }
    }
    if exists i :: 0 <= i < |rs| && rs[i].date == date {
      var i :| 0 <= i < |rs| && rs[i].date == date;
      MonthRecordDate(store, y, m, n, s, astro, millis, i);
      assert 1 <= ds[i] <= n && DateText(y, m, ds[i]) == date;
    }
  }

  /** The i-th generated record is dated with the i-th missing day. */
  lemma MonthRecordDate(store: map<string, PrayerTime>, y: nat, m: int, n: nat, s: PrayerSettings, astro: Astronomy,
                        millis: int, i: nat)
    requires i < |MonthRecords(store, y, m, n, s, astro, millis)|
    ensures var ds := MissingDays(store, y, m, n);
            && i < |ds| && 1 <= ds[i] <= n
            && MonthRecords(store, y, m, n, s, astro, millis)[i].date == DateText(y, m, ds[i])
  {
    MonthRecordsAt(store, y, m, n, s, astro, millis, i);
  }

  /**
   * The calculator map always holds the five prayer keys, so the fixed
   * fallbacks are never used: each generated time is the calculated one,
   * and the record is marked as not set by hand.
   */
  lemma GeneratedRecordFields(y: nat, m: int, day: int, s: PrayerSettings, astro: Astronomy, millis: int)
    ensures var r := GeneratedRecord(y, m, day, s, astro, millis);
            var times := PrayerTimeTable(y, m, day, s.latitude, s.longitude, s.calculationMethod, astro);
            && r.fajr == times["Fajr"] && r.dhuhr == times["Dhuhr"] && r.asr == times["Asr"]
            && r.maghrib == times["Maghrib"] && r.isha == times["Isha"]
            && !r.isManuallySet && r.id == 0 && r.date == DateText(y, m, day)
    ensures IsDate(y, m, day) && y < 10000 ==> IsDateText(GeneratedRecord(y, m, day, s, astro, millis).date)
  {
    TableKeys(y, m, day, s.latitude, s.longitude, s.calculationMethod, astro);
    if IsDate(y, m, day) && y < 10000 {
      DateTextWellFormed(y, m, day);
    }
  }

  /** Distinct days of a month get distinct dates, so at most one record per day is generated. */
  lemma OneRecordPerDay(store: map<string, PrayerTime>, y: nat, m: int, n: nat, s: PrayerSettings, astro: Astronomy,
                        millis: int, i: nat, j: nat)
    requires n <= 31
    requires i < j < |MonthRecords(store, y, m, n, s, astro, millis)|
    ensures MonthRecords(store, y, m, n, s, astro, millis)[i].date != MonthRecords(store, y, m, n, s, astro, millis)[j].date
  {
    var ds := MissingDays(store, y, m, n);
    MonthRecordDate(store, y, m, n, s, astro, millis, i);
    MonthRecordDate(store, y, m, n, s, astro, millis, j);
    if DateText(y, m, ds[i]) == DateText(y, m, ds[j]) {
      DateTextInjective(y, m, ds[i], ds[j]);
    }
  }

  class MainViewModel {
    /** The prayer_times table, by date. */
    var prayerStore: map<string, PrayerTime>
    /** The azan_times table, by date. */
    var azanStore: map<string, AzanTime>
    /** The prayer_settings table, by id. */
    var settingsStore: map<int, PrayerSettings>
    var currentPrayerTime: Option<PrayerTime>
    var currentAzanTime: Option<AzanTime>
    var settings: Option<PrayerSettings>
    var nextPrayer: Option<(string, string)>
    /** The silent-mode singleton. */
    const silent: SilentModeManager
    /** The solar functions the calculator uses. */
    const astro: Astronomy

    /** init: load today's records, then the settings. */
    constructor (prayerStore: map<string, PrayerTime>, azanStore: map<string, AzanTime>,
                 settingsStore: map<int, PrayerSettings>, silent: SilentModeManager, astro: Astronomy, clock: Clock)
      ensures this.silent == silent && this.astro == astro
      ensures this.prayerStore == prayerStore && this.azanStore == azanStore
      ensures currentPrayerTime == Lookup(prayerStore, clock.today)
      ensures currentAzanTime == Lookup(azanStore, clock.today)
      ensures nextPrayer == NextAfterReload(None, prayerStore, clock)
      ensures var s := Lookup(settingsStore, SettingsId).GetOr(DefaultSettings);
              settings == Some(s) && this.settingsStore == settingsStore[s.id := s]
    {
      this.prayerStore := prayerStore;
      this.azanStore := azanStore;
      this.settingsStore := settingsStore;
      this.silent := silent;
      this.astro := astro;
      currentPrayerTime := None;
      currentAzanTime := None;
      settings := None;
      nextPrayer := None;
      new;
      LoadTodayData(clock);
      LoadSettings();
    }

    /** loadTodayData: today's records become current and the next prayer is recomputed from them. */
    method LoadTodayData(clock: Clock)
      modifies this
      ensures prayerStore == old(prayerStore) && azanStore == old(azanStore) && settingsStore == old(settingsStore)
      ensures settings == old(settings)
      ensures currentPrayerTime == Lookup(prayerStore, clock.today)
      ensures currentAzanTime == Lookup(azanStore, clock.today)
      ensures nextPrayer == NextAfterReload(old(nextPrayer), prayerStore, clock)
    {
      var prayerTime := Lookup(prayerStore, clock.today);
      currentPrayerTime := prayerTime;
      var azanTime := Lookup(azanStore, clock.today);
      currentAzanTime := azanTime;
      if prayerTime.Some? {
        CalculateNextPrayer(prayerTime.value, clock);
      }
    }

    /** loadSettings: the stored row, or the defaults, which are then written back. */
    method LoadSettings()
      modifies this
      ensures prayerStore == old(prayerStore) && azanStore == old(azanStore)
      ensures currentPrayerTime == old(currentPrayerTime) && currentAzanTime == old(currentAzanTime)
      ensures nextPrayer == old(nextPrayer)
      ensures var s := Lookup(old(settingsStore), SettingsId).GetOr(DefaultSettings);
              settings == Some(s) && settingsStore == old(settingsStore)[s.id := s]
      ensures SettingsId in settingsStore
    {
      var s := Lookup(settingsStore, SettingsId).GetOr(DefaultSettings);
      settings := Some(s);
      settingsStore := settingsStore[s.id := s];
    }

    /** calculateNextPrayer: scan the five prayers in order and stop at the first later one. */
    method CalculateNextPrayer(prayerTime: PrayerTime, clock: Clock)
      modifies this
      ensures prayerStore == old(prayerStore) && azanStore == old(azanStore) && settingsStore == old(settingsStore)
      ensures currentPrayerTime == old(currentPrayerTime) && currentAzanTime == old(currentAzanTime)
      ensures settings == old(settings)
      ensures nextPrayer == NextPrayer(old(nextPrayer), prayerTime, clock, prayerStore)
    {
      var currentTime := clock.timeOfDay;
      var prayers := PrayerList(prayerTime);
      for i := 0 to |prayers|
        invariant forall j :: 0 <= j < i ==> !LexLess(currentTime, prayers[j].1)
      {
        var (name, time) := prayers[i];
        if LexLess(currentTime, time) {
          nextPrayer := Some((name, time));
          return;
        }
      }
      var tomorrowPrayer := Lookup(prayerStore, clock.tomorrow);
      if tomorrowPrayer.Some? {
        nextPrayer := Some(("Fajr", tomorrowPrayer.value.fajr));
      }
    }

    /**
     * updatePrayerTime: store the record, make it current, recompute the
     * next prayer, and reschedule silent mode only when settings are loaded
     * and silent mode is enabled.
     */
    method UpdatePrayerTime(prayerTime: PrayerTime, clock: Clock)
      requires silent.Valid()
      modifies this, silent
      ensures silent.Valid()
      ensures prayerStore == old(prayerStore)[prayerTime.date := prayerTime]
      ensures azanStore == old(azanStore) && settingsStore == old(settingsStore) && settings == old(settings)
      ensures currentPrayerTime == Some(prayerTime) && currentAzanTime == old(currentAzanTime)
      ensures nextPrayer == NextPrayer(old(nextPrayer), prayerTime, clock, prayerStore)
      ensures silent.State() == if settings.Some? && settings.value.enableSilentMode
                                then ScheduleAll(old(silent.State()), silent.exactAlarmsAllowed, prayerTime, settings.value, clock.millis)
                                else old(silent.State())
    {
      prayerStore := prayerStore[prayerTime.date := prayerTime];
      currentPrayerTime := Some(prayerTime);
      CalculateNextPrayer(prayerTime, clock);
      if settings.Some? && settings.value.enableSilentMode {
        silent.ScheduleAllSilentModes(prayerTime, settings.value, clock.millis);
      }
    }

    /** updateAzanTime: store the record and make it current. */
    method UpdateAzanTime(azanTime: AzanTime)
      modifies this
      ensures azanStore == old(azanStore)[azanTime.date := azanTime]
      ensures currentAzanTime == Some(azanTime)
      ensures prayerStore == old(prayerStore) && settingsStore == old(settingsStore) && settings == old(settings)
      ensures currentPrayerTime == old(currentPrayerTime) && nextPrayer == old(nextPrayer)
    {
      azanStore := azanStore[azanTime.date := azanTime];
      currentAzanTime := Some(azanTime);
    }

    /** updateSettings: an @Update rewrites only an existing row with the same id; the LiveData takes the value regardless. */
    method UpdateSettings(newSettings: PrayerSettings)
      modifies this
      ensures settingsStore == if newSettings.id in old(settingsStore) then old(settingsStore)[newSettings.id := newSettings]
                               else old(settingsStore)
      ensures settings == Some(newSettings)
      ensures prayerStore == old(prayerStore) && azanStore == old(azanStore)
      ensures currentPrayerTime == old(currentPrayerTime) && currentAzanTime == old(currentAzanTime)
      ensures nextPrayer == old(nextPrayer)
    {
      if newSettings.id in settingsStore {
        settingsStore := settingsStore[newSettings.id := newSettings];
      }
      settings := Some(newSettings);
    }

    /** The record generatePrayerTimesForMonth builds for a day without one. */
    method CalculateDayRecord(y: nat, m: int, day: int, s: PrayerSettings, clock: Clock) returns (prayerTime: PrayerTime)
      ensures prayerTime == GeneratedRecord(y, m, day, s, astro, clock.millis)
    {
      var calculatedTimes := CalculatePrayerTimes(y, m, day, s.latitude, s.longitude, s.calculationMethod, astro);
      prayerTime := PrayerTime(
        date := DateText(y, m, day),
        fajr := Lookup(calculatedTimes, "Fajr").GetOr(DefaultFajr),
        dhuhr := Lookup(calculatedTimes, "Dhuhr").GetOr(DefaultDhuhr),
        asr := Lookup(calculatedTimes, "Asr").GetOr(DefaultAsr),
        maghrib := Lookup(calculatedTimes, "Maghrib").GetOr(DefaultMaghrib),
        isha := Lookup(calculatedTimes, "Isha").GetOr(DefaultIsha),
        isManuallySet := false,
        createdAt := clock.millis);
    }

    /**
     * The day loop of generatePrayerTimesForMonth: walks days 1..daysInMonth
     * and computes a record for each day the store has no record for.
     */
    method CollectMissingRecords(y: nat, m: int, s: PrayerSettings, clock: Clock) returns (prayerTimes: seq<PrayerTime>)
      requires 1 <= m <= 12
      ensures prayerTimes == MonthRecords(prayerStore, y, m, DaysInMonth(y, m), s, astro, clock.millis)
    {
      var daysInMonth := DaysInMonth(y, m);
      prayerTimes := [];
      for day := 1 to daysInMonth + 1
        invariant prayerTimes == MonthRecords(prayerStore, y, m, day - 1, s, astro, clock.millis)
      {
        MonthRecordsStep(prayerStore, y, m, day, s, astro, clock.millis);
        var date := DateText(y, m, day);
        var existing := Lookup(prayerStore, date);
        if existing.None? {
          var prayerTime := CalculateDayRecord(y, m, day, s, clock);
          prayerTimes := prayerTimes + [prayerTime];
        } else {
          assert date in prayerStore;
        }
      }
    }

    /**
     * generatePrayerTimesForMonth: for each day of the month without a
     * record, compute one; insert them all and reload today's data if any
     * were made.  `month` is 1-based and normalised as Calendar.set does.
     */
    method GeneratePrayerTimesForMonth(year: int, month: int, clock: Clock)
      requires NormalizeMonth(year, month).0 >= 1
      modifies this
      ensures settingsStore == old(settingsStore) && azanStore == old(azanStore) && settings == old(settings)
      ensures !GenerationEnabled(settings) ==>
                prayerStore == old(prayerStore) && currentPrayerTime == old(currentPrayerTime)
                && currentAzanTime == old(currentAzanTime) && nextPrayer == old(nextPrayer)
      ensures GenerationEnabled(settings) ==>
                var (y, m) := NormalizeMonth(year, month);
                var rs := MonthRecords(old(prayerStore), y, m, DaysInMonth(y, m), settings.value, astro, clock.millis);
                && prayerStore == InsertAll(old(prayerStore), rs)
                && (rs == [] ==> currentPrayerTime == old(currentPrayerTime) && currentAzanTime == old(currentAzanTime)
                                 && nextPrayer == old(nextPrayer))
                && (rs != [] ==> currentPrayerTime == Lookup(prayerStore, clock.today)
                                 && currentAzanTime == Lookup(azanStore, clock.today)
                                 && nextPrayer == NextAfterReload(old(nextPrayer), prayerStore, clock))
    {
      if settings.None? {
        return;
      }
      var s := settings.value;
      if !s.autoCalculateTimes || s.latitude == 0.0 || s.longitude == 0.0 {
        return;
      }
      var (y, m) := NormalizeMonth(year, month);
      var prayerTimes := CollectMissingRecords(y, m, s, clock);
      if |prayerTimes| > 0 {
        prayerStore := InsertAll(prayerStore, prayerTimes);
        LoadTodayData(clock);
      }
    }
  }
}
