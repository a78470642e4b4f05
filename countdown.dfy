/**
 * HomeFragment's countdown to a prayer: how long until the next occurrence
 * of an "HH:mm" time of day, written as "<h>h <m>m" or "<m>m".
 */
module Countdown {
  import opened Wrappers
  import opened Text
  import opened SilentMode

  const HourMillis: int := 60 * MinuteMillis

  /** Milliseconds from `now` to the next instant, strictly later, whose time of day is `minutes` (taken modulo a day). */
  function MillisUntil(now: int, minutes: nat): int {
    var target := (minutes % (24 * 60)) * MinuteMillis;
    var sinceMidnight := now % DayMillis;
    if target > sinceMidnight then target - sinceMidnight else target - sinceMidnight + DayMillis
  }

  /** The displayed text for a positive difference: whole hours and leftover whole minutes, unpadded. */
  function CountdownText(diff: nat): string {
    var hours := diff / HourMillis;
    var minutes := (diff % HourMillis) / MinuteMillis;
    if hours > 0 then NatText(hours) + "h " + NatText(minutes) + "m"
    else NatText(minutes) + "m"
  }

  /** calculateTimeRemaining as one value: "" when the time does not parse. */
  function RemainingText(prayerTime: string, now: int): string {
    match ParseClockText(prayerTime)
    case None => ""
    case Some(minutes) => CountdownText(MillisUntil(now, minutes))
  }

  /** The countdown target is strictly after now, at most one day ahead, and lands exactly on the prayer's time of day. */
  lemma MillisUntilIsNextOccurrence(now: int, minutes: nat)
    ensures var diff := MillisUntil(now, minutes);
            && 0 < diff <= DayMillis
            && (now + diff) % DayMillis == (minutes % (24 * 60)) * MinuteMillis
  {
    var target := (minutes % (24 * 60)) * MinuteMillis;
    var q := now / DayMillis;
    var diff := MillisUntil(now, minutes);
    if target > now % DayMillis {
      assert now + diff == q * DayMillis + target;
      ShiftMod(q, target);
    } else {
      assert now + diff == (q + 1) * DayMillis + target;
      ShiftMod(q + 1, target);
    }
  }

  /** ... and those three facts determine it: no other delay of at most a day lands on that time. */
  lemma MillisUntilUnique(now: int, minutes: nat, e: int)
    requires 0 < e <= DayMillis
    requires (now + e) % DayMillis == (minutes % (24 * 60)) * MinuteMillis
    ensures e == MillisUntil(now, minutes)
  {
    var target := (minutes % (24 * 60)) * MinuteMillis;
    var q := now / DayMillis;
    var s := now % DayMillis;
    var k := (now + e) / DayMillis;
    assert now == q * DayMillis + s;
    assert now + e == k * DayMillis + target;
    assert e == k * DayMillis - q * DayMillis + (target - s);
    DayMultiples(q, k, target - s);
  }

  /** A delay of (k - q) days plus an offset within a day lies in (0, one day] only on the same or the next day. */
  lemma DayMultiples(q: int, k: int, off: int)
    requires -DayMillis < off < DayMillis
    requires 0 < k * DayMillis - q * DayMillis + off <= DayMillis
    ensures k == q || k == q + 1
    ensures k == q ==> off > 0
    ensures k == q + 1 ==> off <= 0
  {
    var n := k - q;
    assert k * DayMillis - q * DayMillis == n * DayMillis;
  }

  lemma ShiftMod(k: int, t: int)
    requires 0 <= t < DayMillis
    ensures (k * DayMillis + t) % DayMillis == t
  {
  }

  /** Hours and minutes split the difference: minutes below 60, and together the whole minutes of `diff`. */
  lemma CountdownParts(diff: nat)
    requires 0 < diff <= DayMillis
    ensures var hours := diff / HourMillis;
            var minutes := (diff % HourMillis) / MinuteMillis;
            && 0 <= minutes < 60 && 0 <= hours <= 24
            && 60 * hours + minutes == diff / MinuteMillis
  {
    var hours := diff / HourMillis;
    var r := diff % HourMillis;
    assert diff == hours * HourMillis + r;
    var minutes := r / MinuteMillis;
    assert r == minutes * MinuteMillis + r % MinuteMillis;
    assert diff == (60 * hours + minutes) * MinuteMillis + r % MinuteMillis;
  }

  /** Below one hour only minutes are shown, and reading the digits back gives the whole minutes. */
  lemma CountdownTextUnderAnHour(diff: nat)
    requires diff < HourMillis
    ensures var t := CountdownText(diff);
            && t[|t| - 1] == 'm' && AllDigits(t[..|t| - 1])
            && DigitsValue(t[..|t| - 1]) == diff / MinuteMillis
  {
    var t := CountdownText(diff);
    var minutes := (diff % HourMillis) / MinuteMillis;
    NatTextRoundTrip(minutes);
    assert t[..|t| - 1] == NatText(minutes);
  }

  /** From one hour on, the text is hours, "h ", minutes, "m", each read back exactly, without padding. */
  lemma CountdownTextWithHours(diff: nat)
    requires HourMillis <= diff
    ensures var hours := diff / HourMillis;
            var minutes := (diff % HourMillis) / MinuteMillis;
            var t := CountdownText(diff);
            && t == NatText(hours) + "h " + NatText(minutes) + "m"
            && DigitsValue(NatText(hours)) == hours && DigitsValue(NatText(minutes)) == minutes
            && (minutes < 10 ==> |NatText(minutes)| == 1)
  {
    NatTextRoundTrip(diff / HourMillis);
    NatTextRoundTrip((diff % HourMillis) / MinuteMillis);
  }

  /** An unparseable time gives the empty text. */
  lemma UnparseableGivesEmpty(prayerTime: string, now: int)
    requires ParseClockText(prayerTime).None?
    ensures RemainingText(prayerTime, now) == ""
  {
  }

  /**
   * calculateTimeRemaining: put the time on today's date, move it to
   * tomorrow if it is not after now, then split the difference.
   */
  method CalculateTimeRemaining(prayerTime: string, now: int) returns (r: string)
    ensures r == RemainingText(prayerTime, now)
  {
    var time := ParseClockText(prayerTime);
    if time.None? {
      return "";
    }
    var prayerMillis := TodayAt(now, time.value);
    if prayerMillis <= now {
      prayerMillis := prayerMillis + DayMillis;
    }
    var diffInMillis := prayerMillis - now;
    assert diffInMillis == MillisUntil(now, time.value);
    var hours: nat := diffInMillis / (1000 * 60 * 60);
    var minutes: nat := (diffInMillis % (1000 * 60 * 60)) / (1000 * 60);
    if hours > 0 {
      r := NatText(hours) + "h " + NatText(minutes) + "m";
    } else {
      r := NatText(minutes) + "m";
    }
  }
}
