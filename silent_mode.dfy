/**
 * SilentModeManager: silences the phone around each of the five prayers.
 * The platform alarm service is a table of alarm slots keyed by
 * (prayer name, enable flag), the WorkManager fallback a queue of delayed
 * requests.  Times are local milliseconds; a day starts at a multiple of
 * DayMillis.
 */
module SilentMode {
  import opened Wrappers
  import opened Text
  import opened Models

  const MinuteMillis: int := 60 * 1000
  const DayMillis: int := 24 * 60 * MinuteMillis

  /** Kotlin's 32-bit Int arithmetic wraps around modulo 2^32. */
  function WrapInt(x: int): (r: int)
    ensures IntMin <= r <= IntMax
    ensures IntMin <= x <= IntMax ==> r == x
  {
    (x - IntMin) % 0x1_0000_0000 + IntMin
  }

  /**
   * The instant of a parsed "HH:mm" on the current day: the parsed time's
   * time of day, with year, month and day then set to today's, so a lenient
   * overflow past 24 hours is dropped.
   */
  function TodayAt(now: int, minutes: nat): int {
    now - now % DayMillis + (minutes % (24 * 60)) * MinuteMillis
  }

  /** The silent interval around one prayer. */
  datatype Window = Window(start: int, end: int)

  /** Silence starts `durationMinutes` before the prayer (an Int product) and ends 5 minutes after it. */
  function SilentWindow(prayerMillis: int, durationMinutes: int): Window {
    Window(prayerMillis - WrapInt(durationMinutes * 60 * 1000), prayerMillis + 5 * 60 * 1000)
  }

  /** For any duration whose millisecond count fits an Int, the window is duration + 5 minutes long. */
  lemma WindowLength(prayerMillis: int, d: int)
    requires -35791 <= d <= 35791
    ensures SilentWindow(prayerMillis, d).start == prayerMillis - d * MinuteMillis
    ensures SilentWindow(prayerMillis, d).end == prayerMillis + 5 * MinuteMillis
    ensures SilentWindow(prayerMillis, d).end - SilentWindow(prayerMillis, d).start == (d + 5) * MinuteMillis
  {
  }

  /** An alarm slot is identified by the prayer and whether it switches silence on or off. */
  datatype SlotKey = Slot(prayerName: string, enableSilent: bool)

  /** A delayed WorkManager request carrying the same two inputs. */
  datatype WorkRequest = WorkRequest(delay: int, prayerName: string, enableSilent: bool)

  /** Scheduled alarms (slot to trigger time) and the queued fallback work. */
  datatype Alarms = Alarms(slots: map<SlotKey, int>, work: seq<WorkRequest>)

  /** The ten slots used: five prayers, on and off. */
  const AllSlots: set<SlotKey> := {
    Slot("Fajr", true), Slot("Fajr", false), Slot("Dhuhr", true), Slot("Dhuhr", false),
    Slot("Asr", true), Slot("Asr", false), Slot("Maghrib", true), Slot("Maghrib", false),
    Slot("Isha", true), Slot("Isha", false)}

  lemma AllSlotsAreFivePrayers(k: SlotKey)
    ensures k in AllSlots <==> k.prayerName in FivePrayers
  {
  }

  lemma AllSlotsCount()
    ensures |AllSlots| == 10
  {
    var s := AllSlots;
    assert "Fajr" != "Dhuhr" && "Fajr" != "Asr" && "Fajr" != "Maghrib" && "Fajr" != "Isha";
    assert "Dhuhr" != "Asr" && "Dhuhr" != "Maghrib" && "Dhuhr" != "Isha";
    assert "Asr" != "Maghrib" && "Asr" != "Isha" && "Maghrib" != "Isha";
  }

  /** scheduleWithWorkManager: enqueue only a trigger strictly in the future. */
  function EnqueueWork(a: Alarms, trigger: int, name: string, flag: bool, now: int): Alarms {
    var delay := trigger - now;
    if delay <= 0 then a
    else a.(work := a.work + [WorkRequest(delay, name, flag)])
  }

  /**
   * scheduleAlarm: an exact alarm replaces whatever the slot held
   * (FLAG_UPDATE_CURRENT); when exact alarms are refused the request goes
   * to WorkManager instead.
   */
  function AlarmStep(a: Alarms, exact: bool, trigger: int, name: string, flag: bool, now: int): Alarms {
    if exact then a.(slots := a.slots[Slot(name, flag) := trigger])
    else EnqueueWork(a, trigger, name, flag, now)
  }

  /** scheduleSilentMode: both alarms of one prayer, only if silence would start in the future. */
  function SilentStep(a: Alarms, exact: bool, name: string, timeText: string, duration: int, now: int): Alarms {
    match ParseClockText(timeText)
    case None => a
    case Some(minutes) =>
      var w := SilentWindow(TodayAt(now, minutes), duration);
      if w.start > now then
        AlarmStep(AlarmStep(a, exact, w.start, name, true, now), exact, w.end, name, false, now)
      else a
  }

  /** The forEach over (name, time) pairs, one prayer after another. */
  function SilentSteps(a: Alarms, exact: bool, ps: seq<(string, string)>, duration: int, now: int): Alarms
    decreases |ps|
  {
    if ps == [] then a
    else
      var last := ps[|ps| - 1];
      SilentStep(SilentSteps(a, exact, ps[..|ps| - 1], duration, now), exact, last.0, last.1, duration, now)
  }

  /** scheduleAllSilentModes. */
  function ScheduleAll(a: Alarms, exact: bool, p: PrayerTime, settings: PrayerSettings, now: int): Alarms {
    if !settings.enableSilentMode then a
    else SilentSteps(a, exact, PrayerList(p), settings.silentModeDuration, now)
  }

  /** cancelAllSilentModeAlarms: drop every silent-mode work request and all ten slots. */
  function CancelAll(a: Alarms): Alarms {
    Alarms(a.slots - AllSlots, [])
  }

  /** With silent mode disabled nothing at all is scheduled. */
  lemma DisabledSchedulesNothing(a: Alarms, exact: bool, p: PrayerTime, settings: PrayerSettings, now: int)
    requires !settings.enableSilentMode
    ensures ScheduleAll(a, exact, p, settings, now) == a
  {
  }

  /** The fallback never enqueues a trigger that is not strictly in the future. */
  lemma WorkNeedsFutureTrigger(a: Alarms, trigger: int, name: string, flag: bool, now: int)
    ensures trigger <= now ==> EnqueueWork(a, trigger, name, flag, now) == a
    ensures trigger > now ==> EnqueueWork(a, trigger, name, flag, now).work
                              == a.work + [WorkRequest(trigger - now, name, flag)]
  {
  }

  /**
   * With exact alarms, start and end alarms are set together exactly when
   * silence starts in the future; a started window is skipped even though
   * its end is still ahead.  Other slots keep their alarms.
   */
  lemma StartAndEndTogether(a: Alarms, name: string, timeText: string, minutes: nat, duration: int, now: int)
    requires ParseClockText(timeText) == Some(minutes)
    ensures var w := SilentWindow(TodayAt(now, minutes), duration);
            var r := SilentStep(a, true, name, timeText, duration, now);
            && (w.start <= now ==> r == a)
            && (w.start > now ==>
                 && r.work == a.work
                 && Slot(name, true) in r.slots && r.slots[Slot(name, true)] == w.start
                 && Slot(name, false) in r.slots && r.slots[Slot(name, false)] == w.end
                 && (forall k :: k in a.slots && k.prayerName != name ==> k in r.slots && r.slots[k] == a.slots[k])
                 && forall k :: k in r.slots ==> k in a.slots || k == Slot(name, true) || k == Slot(name, false))
  {
  }

  /** Without exact alarms both requests go to WorkManager, in order, and no slot changes. */
  lemma FallbackQueuesBoth(a: Alarms, name: string, timeText: string, minutes: nat, duration: int, now: int)
    requires ParseClockText(timeText) == Some(minutes)
    requires -5 < duration <= 35791
    ensures var w := SilentWindow(TodayAt(now, minutes), duration);
            var r := SilentStep(a, false, name, timeText, duration, now);
            && r.slots == a.slots
            && r.work == (if w.start > now
                          then a.work + [WorkRequest(w.start - now, name, true), WorkRequest(w.end - now, name, false)]
                          else a.work)
  {
    WindowLength(TodayAt(now, minutes), duration);
  }

  /** A time that does not parse schedules nothing for that prayer. */
  lemma UnparseableSkipped(a: Alarms, exact: bool, name: string, timeText: string, duration: int, now: int)
    requires ParseClockText(timeText) == None
    ensures SilentStep(a, exact, name, timeText, duration, now) == a
  {
  }

  /** ...and the other prayers are scheduled exactly as if that one were not in the list. */
  lemma {:induction false} UnparseableDoesNotStopOthers(a: Alarms, exact: bool, ps: seq<(string, string)>, i: nat,
                                                         duration: int, now: int)
    requires i < |ps| && ParseClockText(ps[i].1) == None
    ensures SilentSteps(a, exact, ps, duration, now) == SilentSteps(a, exact, ps[..i] + ps[i + 1..], duration, now)
    decreases |ps|
  {
    var n := |ps|;
    if i == n - 1 {
      assert ps[..i] + ps[i + 1..] == ps[..n - 1];
    } else {
      var qs := ps[..n - 1];
      UnparseableDoesNotStopOthers(a, exact, qs, i, duration, now);
      var rs := ps[..i] + ps[i + 1..];
      assert rs[..|rs| - 1] == qs[..i] + qs[i + 1..];
      assert rs[|rs| - 1] == ps[n - 1];
    }
  }

  /** Changes touch only slots and work of the prayer being scheduled. */
  ghost predicate OnlyPrayers(a: Alarms, r: Alarms, names: set<string>) {
    && (forall k: SlotKey :: k.prayerName !in names ==> (k in r.slots <==> k in a.slots))
    && (forall k: SlotKey :: k.prayerName !in names && k in a.slots ==> r.slots[k] == a.slots[k])
    && |a.work| <= |r.work| && r.work[..|a.work|] == a.work
    && (forall j :: |a.work| <= j < |r.work| ==> r.work[j].prayerName in names)
  }

  lemma OnlyPrayersTrans(a: Alarms, b: Alarms, c: Alarms, names: set<string>)
    requires OnlyPrayers(a, b, names) && OnlyPrayers(b, c, names)
    ensures OnlyPrayers(a, c, names)
  {
    assert c.work[..|a.work|] == c.work[..|b.work|][..|a.work|];
  }

  lemma {:induction false} StepsOnlyTouchListed(a: Alarms, exact: bool, ps: seq<(string, string)>, names: set<string>,
                                                duration: int, now: int)
    requires forall i :: 0 <= i < |ps| ==> ps[i].0 in names
    ensures OnlyPrayers(a, SilentSteps(a, exact, ps, duration, now), names)
    decreases |ps|
  {
    if ps != [] {
      var qs := ps[..|ps| - 1];
      var last := ps[|ps| - 1];
      StepsOnlyTouchListed(a, exact, qs, names, duration, now);
      var b := SilentSteps(a, exact, qs, duration, now);
      var c := SilentStep(b, exact, last.0, last.1, duration, now);
      assert OnlyPrayers(b, c, names);
      OnlyPrayersTrans(a, b, c, names);
    }
  }

  /** The names PrayerList produces. */
  const FiveNames: set<string> := {"Fajr", "Dhuhr", "Asr", "Maghrib", "Isha"}

  lemma PrayerListNames(p: PrayerTime)
    ensures forall i :: 0 <= i < |PrayerList(p)| ==> PrayerList(p)[i].0 in FiveNames
  {
  }

  /**
   * Scheduling never touches a slot or queues work outside the five
   * prayers, so never for Sunrise.
   */
  lemma ScheduleAllOnlyPrayers(a: Alarms, exact: bool, p: PrayerTime, settings: PrayerSettings, now: int)
    ensures OnlyPrayers(a, ScheduleAll(a, exact, p, settings, now), FiveNames)
  {
    if settings.enableSilentMode {
      PrayerListNames(p);
      StepsOnlyTouchListed(a, exact, PrayerList(p), FiveNames, settings.silentModeDuration, now);
    } else {
      assert a.work[..|a.work|] == a.work;
    }
  }

  /** Starting from at most the ten slots, the table keeps at most the ten slots and never holds Sunrise. */
  lemma ScheduleAllStaysInSlots(a: Alarms, exact: bool, p: PrayerTime, settings: PrayerSettings, now: int)
    requires a.slots.Keys <= AllSlots
    ensures var r := ScheduleAll(a, exact, p, settings, now);
            && r.slots.Keys <= AllSlots && |r.slots| <= 10
            && (forall f :: Slot("Sunrise", f) !in r.slots)
  {
    var r := ScheduleAll(a, exact, p, settings, now);
    ScheduleAllOnlyPrayers(a, exact, p, settings, now);
    forall k | k in r.slots
      ensures k in AllSlots
    {
      AllSlotsAreFivePrayers(k);
      if k.prayerName !in FiveNames {
        assert k in a.slots;
      }
    }
    AllSlotsCount();
    SubsetCard(r.slots.Keys, AllSlots);
  }

  lemma SubsetCard<T>(a: set<T>, b: set<T>)
    requires a <= b
    ensures |a| <= |b|
  {
    assert b == a + (b - a);
  }

  /** After cancelling, no silent-mode alarm or work is left. */
  lemma CancelAllClears(a: Alarms)
    requires a.slots.Keys <= AllSlots
    ensures CancelAll(a).slots == map[] && CancelAll(a).work == []
  {
    assert CancelAll(a).slots.Keys == {};
  }

  /** Outcome of SilentModeWorker.doWork. */
  datatype WorkOutcome = Failure | SilenceOn | SilenceOff

  /** doWork: fail without a prayer name; otherwise switch silence on iff the flag (default false) is set. */
  function DoWork(prayerName: Option<string>, enableSilent: Option<bool>): (r: WorkOutcome)
  {
    if prayerName.None? then Failure
    else if enableSilent.GetOr(false) then SilenceOn
    else SilenceOff
  }

  lemma DoWorkDispatch(prayerName: Option<string>, enableSilent: Option<bool>)
    ensures DoWork(prayerName, enableSilent) == Failure <==> prayerName.None?
    ensures DoWork(prayerName, enableSilent) == SilenceOn <==> prayerName.Some? && enableSilent == Some(true)
  {
  }

  /** The singleton manager with the platform alarm table and work queue as its state. */
  class SilentModeManager {
    var slots: map<SlotKey, int>
    var work: seq<WorkRequest>
    /** Whether the platform grants exact alarms; otherwise scheduleAlarm throws SecurityException. */
    const exactAlarmsAllowed: bool

    function State(): Alarms
      reads this
    {
      Alarms(slots, work)
    }

    ghost predicate Valid()
      reads this
    {
      slots.Keys <= AllSlots
    }

    constructor (exactAlarmsAllowed: bool)
      ensures Valid() && State() == Alarms(map[], [])
      ensures this.exactAlarmsAllowed == exactAlarmsAllowed
    {
      slots := map[];
      work := [];
      this.exactAlarmsAllowed := exactAlarmsAllowed;
    }

    method ScheduleWithWorkManager(triggerTime: int, prayerName: string, enableSilent: bool, now: int)
      modifies this
      ensures State() == EnqueueWork(old(State()), triggerTime, prayerName, enableSilent, now)
    {
      var delay := triggerTime - now;
      if delay <= 0 {
        return;
      }
      work := work + [WorkRequest(delay, prayerName, enableSilent)];
    }

    method ScheduleAlarm(triggerTime: int, prayerName: string, enableSilent: bool, now: int)
      modifies this
      ensures State() == AlarmStep(old(State()), exactAlarmsAllowed, triggerTime, prayerName, enableSilent, now)
    {
      if exactAlarmsAllowed {
        slots := slots[Slot(prayerName, enableSilent) := triggerTime];
      } else {
        ScheduleWithWorkManager(triggerTime, prayerName, enableSilent, now);
      }
    }

    method ScheduleSilentMode(prayerName: string, prayerTimeText: string, durationMinutes: int, now: int)
      modifies this
      ensures State() == SilentStep(old(State()), exactAlarmsAllowed, prayerName, prayerTimeText, durationMinutes, now)
    {
      var parsed := ParseClockText(prayerTimeText);
      if parsed.None? {
        return;
      }
      var prayerMillis := TodayAt(now, parsed.value);
      var silentStartTime := prayerMillis - WrapInt(durationMinutes * 60 * 1000);
      var silentEndTime := prayerMillis + 5 * 60 * 1000;
      if silentStartTime > now {
        ScheduleAlarm(silentStartTime, prayerName, true, now);
        ScheduleAlarm(silentEndTime, prayerName, false, now);
      }
    }

    method ScheduleAllSilentModes(prayerTime: PrayerTime, settings: PrayerSettings, now: int)
      requires Valid()
      modifies this
      ensures Valid()
      ensures State() == ScheduleAll(old(State()), exactAlarmsAllowed, prayerTime, settings, now)
    {
      if !settings.enableSilentMode {
        return;
      }
      var prayers := PrayerList(prayerTime);
      for i := 0 to |prayers|
        invariant State() == SilentSteps(old(State()), exactAlarmsAllowed, prayers[..i], settings.silentModeDuration, now)
      {
        assert prayers[..i + 1][..i] == prayers[..i];
        ScheduleSilentMode(prayers[i].0, prayers[i].1, settings.silentModeDuration, now);
      }
      assert prayers[..|prayers|] == prayers;
      ScheduleAllStaysInSlots(old(State()), exactAlarmsAllowed, prayerTime, settings, now);
    }

    method CancelAllSilentModeAlarms()
      modifies this
      ensures State() == CancelAll(old(State()))
    {
      work := [];
      for i := 0 to |FivePrayers|
        invariant work == []
        invariant slots == old(slots) - (set k | k in AllSlots && SlotIndex(k) < 2 * i)
      {
        for j := 0 to 2
          invariant work == []
          invariant slots == old(slots) - (set k | k in AllSlots && SlotIndex(k) < 2 * i + j)
        {
          var enableSilent := j == 0;
          SlotIndexOf(FivePrayers[i], enableSilent, i);
          CancelledGrows(2 * i + j, Slot(FivePrayers[i], enableSilent));
          slots := slots - {Slot(FivePrayers[i], enableSilent)};
        }
      }
      CancelledGrows(10, Slot("Fajr", true));
    }
  }

  /** Position of a slot in the order cancelAllSilentModeAlarms visits them. */
  function SlotIndex(k: SlotKey): nat {
    var p := match k.prayerName
      case "Fajr" => 0
      case "Dhuhr" => 1
      case "Asr" => 2
      case "Maghrib" => 3
      case _ => 4;
    2 * p + (if k.enableSilent then 0 else 1)
  }

  lemma SlotIndexOf(name: string, flag: bool, i: nat)
    requires i < 5 && name == FivePrayers[i]
    ensures SlotIndex(Slot(name, flag)) == 2 * i + (if flag then 0 else 1)
    ensures Slot(name, flag) in AllSlots
  {
  }

  lemma CancelledGrows(n: nat, k: SlotKey)
    requires n < 10 ==> k in AllSlots && SlotIndex(k) == n
    ensures n < 10 ==> (set s | s in AllSlots && SlotIndex(s) < n + 1) == (set s | s in AllSlots && SlotIndex(s) < n) + {k}
    ensures n >= 10 ==> (set s | s in AllSlots && SlotIndex(s) < n) == AllSlots
  {
    if n < 10 {
      forall s | s in AllSlots && SlotIndex(s) == n
        ensures s == k
      {
      }
    }
  }
}
