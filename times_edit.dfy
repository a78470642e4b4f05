/**
 * TimesFragment's manual edits: reading "HH:mm" into (hour, minute) for
 * the time picker, writing the picked time back as "%02d:%02d", and
 * building the edited prayer or azan record.
 */
module TimesEdit {
  import opened Wrappers
  import opened Text
  import opened Calendar
  import opened Models
  import opened SilentMode
  import opened ViewModel

  /** parseTime: the first two ':'-separated pieces as integers, or (12, 0) when either is missing or not an Int. */
  function ParseTime(timeString: string): (hm: (int, int)) {
    var parts := Split(timeString, ':');
    if |parts| < 2 then (12, 0)
    else match (ToIntOrNull(parts[0]), ToIntOrNull(parts[1]))
      case (Some(hour), Some(minute)) => (hour, minute)
      case _ => (12, 0)
  }

  /** Any time the picker can produce is written as "%02d:%02d" and read back unchanged. */
  lemma ParseFormattedTime(hour: int, minute: int)
    requires 0 <= hour <= 23 && 0 <= minute <= 59
    ensures ParseTime(ClockText(hour, minute)) == (hour, minute)
    ensures IsClockText(ClockText(hour, minute))
  {
    Pad2InRange(hour);
    Pad2InRange(minute);
    assert Lacks(Pad2(hour), ':') && Lacks(Pad2(minute), ':');
    assert ClockText(hour, minute) == Pad2(hour) + [':'] + Pad2(minute);
    SplitFirst(Pad2(hour), ':', Pad2(minute));
    ToIntOfPad2(hour);
    ToIntOfPad2(minute);
    ClockTextRoundTrip(hour, minute);
  }

  /** Without a ':' the fallback (12, 0) is used. */
  lemma ParseWithoutColon(timeString: string)
    requires Lacks(timeString, ':')
    ensures ParseTime(timeString) == (12, 0)
  {
  }

  /** If either of the first two pieces is not an Int, the fallback is used. */
  lemma ParseBadPiece(a: string, b: string, rest: string)
    requires Lacks(a, ':') && Lacks(b, ':')
    requires rest == [] || rest[0] == ':'
    requires ToIntOrNull(a).None? || ToIntOrNull(b).None?
    ensures ParseTime(a + ":" + b + rest) == (12, 0)
  {
    SplitPieces(a, b, rest);
  }

  /** Pieces after the second are ignored. */
  lemma ParseIgnoresRest(a: string, b: string, rest: string)
    requires Lacks(a, ':') && Lacks(b, ':')
    ensures ParseTime(a + ":" + b + ":" + rest) == ParseTime(a + ":" + b)
  {
    SplitPieces(a, b, ":" + rest);
    assert a + ":" + b + ":" + rest == a + ":" + b + (":" + rest);
    SplitPieces(a, b, "");
    assert a + ":" + b + "" == a + ":" + b;
  }

  /** The first two pieces of a + ":" + b + rest, when rest is empty or starts a new piece. */
  lemma SplitPieces(a: string, b: string, rest: string)
    requires Lacks(a, ':') && Lacks(b, ':')
    ensures var parts := Split(a + ":" + b + rest, ':');
            |parts| >= 2 && parts[0] == a && (rest == [] || rest[0] == ':' ==> parts[1] == b)
  {
    assert a + ":" + b + rest == a + [':'] + (b + rest);
    SplitFirst(a, ':', b + rest);
    if rest == [] {
      assert b + rest == b;
    } else if rest[0] == ':' {
      assert b + rest == b + [':'] + rest[1..];
      SplitFirst(b, ':', rest[1..]);
    }
  }

  /** A prayer record's time for one of the five names. */
  function PrayerField(p: PrayerTime, name: string): string {
    match name
    case "Fajr" => p.fajr
    case "Dhuhr" => p.dhuhr
    case "Asr" => p.asr
    case "Maghrib" => p.maghrib
    case _ => p.isha
  }

  function DefaultPrayerField(name: string): string {
    match name
    case "Fajr" => DefaultFajr
    case "Dhuhr" => DefaultDhuhr
    case "Asr" => DefaultAsr
    case "Maghrib" => DefaultMaghrib
    case _ => DefaultIsha
  }

  /** The `when` with `?.copy`: a copy of the current record with the named time changed, or null. */
  function CopyPrayer(current: Option<PrayerTime>, name: string, newTime: string): Option<PrayerTime> {
    if current.None? then None
    else match name
      case "Fajr" => Some(current.value.(fajr := newTime, isManuallySet := true))
      case "Dhuhr" => Some(current.value.(dhuhr := newTime, isManuallySet := true))
      case "Asr" => Some(current.value.(asr := newTime, isManuallySet := true))
      case "Maghrib" => Some(current.value.(maghrib := newTime, isManuallySet := true))
      case "Isha" => Some(current.value.(isha := newTime, isManuallySet := true))
      case _ => None
  }

  /** The record updateTime hands to updatePrayerTime. */
  function EditPrayerTime(current: Option<PrayerTime>, name: string, newTime: string, today: string, millis: int): PrayerTime {
    CopyPrayer(current, name, newTime).GetOr(PrayerTime(
      date := today,
      fajr := if name == "Fajr" then newTime else DefaultFajr,
      dhuhr := if name == "Dhuhr" then newTime else DefaultDhuhr,
      asr := if name == "Asr" then newTime else DefaultAsr,
      maghrib := if name == "Maghrib" then newTime else DefaultMaghrib,
      isha := if name == "Isha" then newTime else DefaultIsha,
      isManuallySet := true,
      createdAt := millis))
  }

  /** Editing an existing record changes only the named time and the manual flag. */
  lemma EditExistingPrayer(c: PrayerTime, name: string, newTime: string, today: string, millis: int)
    requires name in FivePrayers
    ensures var r := EditPrayerTime(Some(c), name, newTime, today, millis);
            && r.id == c.id && r.date == c.date && r.createdAt == c.createdAt && r.isManuallySet
            && PrayerField(r, name) == newTime
            && forall n :: n in FivePrayers && n != name ==> PrayerField(r, n) == PrayerField(c, n)
  {
  }

  /** With no current record, a record for today holds the new time and the defaults elsewhere. */
  lemma EditWithoutRecord(name: string, newTime: string, today: string, millis: int)
    requires name in FivePrayers
    ensures var r := EditPrayerTime(None, name, newTime, today, millis);
            && r.id == 0 && r.date == today && r.createdAt == millis && r.isManuallySet
            && PrayerField(r, name) == newTime
            && forall n :: n in FivePrayers && n != name ==> PrayerField(r, n) == DefaultPrayerField(n)
  {
  }

  /** An unknown name maps to null, so even an existing record is replaced by an all-defaults record for today. */
  lemma EditUnknownPrayer(current: Option<PrayerTime>, name: string, newTime: string, today: string, millis: int)
    requires name !in FivePrayers
    ensures var r := EditPrayerTime(current, name, newTime, today, millis);
            && r.date == today && r.id == 0 && r.isManuallySet
            && forall n :: n in FivePrayers ==> PrayerField(r, n) == DefaultPrayerField(n)
  {
  }

  /** Editing keeps a record in the documented formats when the new time is "HH:mm" (and today is a date). */
  lemma EditPrayerWellFormed(current: Option<PrayerTime>, name: string, newTime: string, today: string, millis: int)
    requires current.Some? ==> WellFormedPrayerTime(current.value)
    requires IsClockText(newTime) && IsDateText(today)
    ensures WellFormedPrayerTime(EditPrayerTime(current, name, newTime, today, millis))
  {
    DefaultTimesWellFormed();
  }

  function AzanField(a: AzanTime, name: string): string {
    match name
    case "Fajr" => a.fajrAzan
    case "Dhuhr" => a.dhuhrAzan
    case "Asr" => a.asrAzan
    case "Maghrib" => a.maghribAzan
    case _ => a.ishaAzan
  }

  function DefaultAzanField(name: string): string {
    match name
    case "Fajr" => DefaultFajrAzan
    case "Dhuhr" => DefaultDhuhrAzan
    case "Asr" => DefaultAsrAzan
    case "Maghrib" => DefaultMaghribAzan
    case _ => DefaultIshaAzan
  }

  function CopyAzan(current: Option<AzanTime>, name: string, newTime: string): Option<AzanTime> {
    if current.None? then None
    else match name
      case "Fajr" => Some(current.value.(fajrAzan := newTime, isManuallySet := true))
      case "Dhuhr" => Some(current.value.(dhuhrAzan := newTime, isManuallySet := true))
      case "Asr" => Some(current.value.(asrAzan := newTime, isManuallySet := true))
      case "Maghrib" => Some(current.value.(maghribAzan := newTime, isManuallySet := true))
      case "Isha" => Some(current.value.(ishaAzan := newTime, isManuallySet := true))
      case _ => None
  }

  /** The record updateTime hands to updateAzanTime. */
  function EditAzanTime(current: Option<AzanTime>, name: string, newTime: string, today: string, millis: int): AzanTime {
    CopyAzan(current, name, newTime).GetOr(AzanTime(
      date := today,
      fajrAzan := if name == "Fajr" then newTime else DefaultFajrAzan,
      dhuhrAzan := if name == "Dhuhr" then newTime else DefaultDhuhrAzan,
      asrAzan := if name == "Asr" then newTime else DefaultAsrAzan,
      maghribAzan := if name == "Maghrib" then newTime else DefaultMaghribAzan,
      ishaAzan := if name == "Isha" then newTime else DefaultIshaAzan,
      isManuallySet := true,
      createdAt := millis))
  }

  lemma EditExistingAzan(c: AzanTime, name: string, newTime: string, today: string, millis: int)
    requires name in FivePrayers
    ensures var r := EditAzanTime(Some(c), name, newTime, today, millis);
            && r.id == c.id && r.date == c.date && r.createdAt == c.createdAt && r.isManuallySet
            && AzanField(r, name) == newTime
            && forall n :: n in FivePrayers && n != name ==> AzanField(r, n) == AzanField(c, n)
  {
  }

  lemma EditAzanWithoutRecord(name: string, newTime: string, today: string, millis: int)
    requires name in FivePrayers
    ensures var r := EditAzanTime(None, name, newTime, today, millis);
            && r.id == 0 && r.date == today && r.createdAt == millis && r.isManuallySet
            && AzanField(r, name) == newTime
            && forall n :: n in FivePrayers && n != name ==> AzanField(r, n) == DefaultAzanField(n)
  {
  }

  lemma EditUnknownAzan(current: Option<AzanTime>, name: string, newTime: string, today: string, millis: int)
    requires name !in FivePrayers
    ensures var r := EditAzanTime(current, name, newTime, today, millis);
            && r.date == today && r.id == 0 && r.isManuallySet
            && forall n :: n in FivePrayers ==> AzanField(r, n) == DefaultAzanField(n)
  {
  }

  lemma EditAzanWellFormed(current: Option<AzanTime>, name: string, newTime: string, today: string, millis: int)
    requires current.Some? ==> WellFormedAzanTime(current.value)
    requires IsClockText(newTime) && IsDateText(today)
    ensures WellFormedAzanTime(EditAzanTime(current, name, newTime, today, millis))
  {
    DefaultTimesWellFormed();
  }

  /** updateTime: build the edited record from the view model's current one and hand it over. */
  method UpdateTime(vm: MainViewModel, prayerName: string, newTime: string, isPrayerTime: bool, clock: Clock)
    requires vm.silent.Valid()
    modifies vm, vm.silent
    ensures vm.silent.Valid()
    ensures isPrayerTime ==>
              var p := EditPrayerTime(old(vm.currentPrayerTime), prayerName, newTime, clock.today, clock.millis);
              && vm.currentPrayerTime == Some(p)
              && vm.prayerStore == old(vm.prayerStore)[p.date := p]
              && vm.azanStore == old(vm.azanStore) && vm.currentAzanTime == old(vm.currentAzanTime)
              && vm.settingsStore == old(vm.settingsStore) && vm.settings == old(vm.settings)
              && vm.nextPrayer == NextPrayer(old(vm.nextPrayer), p, clock, vm.prayerStore)
              && vm.silent.State() == if vm.settings.Some? && vm.settings.value.enableSilentMode
                                      then ScheduleAll(old(vm.silent.State()), vm.silent.exactAlarmsAllowed, p,
                                                       vm.settings.value, clock.millis)
                                      else old(vm.silent.State())
    ensures !isPrayerTime ==>
              var a := EditAzanTime(old(vm.currentAzanTime), prayerName, newTime, clock.today, clock.millis);
              && vm.currentAzanTime == Some(a)
              && vm.azanStore == old(vm.azanStore)[a.date := a]
              && vm.prayerStore == old(vm.prayerStore) && vm.currentPrayerTime == old(vm.currentPrayerTime)
              && vm.settingsStore == old(vm.settingsStore) && vm.settings == old(vm.settings)
              && vm.nextPrayer == old(vm.nextPrayer)
              && vm.silent.State() == old(vm.silent.State())
  {
    if isPrayerTime {
      var updatedPrayerTime := EditPrayerTime(vm.currentPrayerTime, prayerName, newTime, clock.today, clock.millis);
      vm.UpdatePrayerTime(updatedPrayerTime, clock);
    } else {
      var updatedAzanTime := EditAzanTime(vm.currentAzanTime, prayerName, newTime, clock.today, clock.millis);
      vm.UpdateAzanTime(updatedAzanTime);
    }
  }
}
