/**
 * The proleptic Gregorian calendar: month lengths, the date text
 * "yyyy-MM-dd", the lenient month rollover of Calendar.set, and a plain day
 * count used as the reference for the Julian Day formula.  This agrees with
 * java.util.GregorianCalendar from 15 October 1582 on; before that date the
 * Java class follows the Julian calendar, which is not modelled.
 */
module Calendar {
  import opened Text

  /** The Gregorian 4/100/400 rule. */
  predicate IsLeapYear(y: int) {
    y % 4 == 0 && (y % 100 != 0 || y % 400 == 0)
  }

  predicate IsMonth(m: int) {
    1 <= m <= 12
  }

  /** Calendar.getActualMaximum(DAY_OF_MONTH). */
  function DaysInMonth(y: int, m: int): (n: int)
    requires IsMonth(m)
    ensures 28 <= n <= 31
    ensures m == 2 ==> (n == 29 <==> IsLeapYear(y))
  {
    if m == 2 then (if IsLeapYear(y) then 29 else 28)
    else if m == 4 || m == 6 || m == 9 || m == 11 then 30
    else 31
  }

  predicate IsDate(y: int, m: int, d: int) {
    y >= 1 && IsMonth(m) && 1 <= d <= DaysInMonth(y, m)
  }

  function DaysInYear(y: int): int {
    if IsLeapYear(y) then 366 else 365
  }

  /** Days in the years 1 .. y-1. */
  function DaysBeforeYear(y: int): nat
    requires y >= 1
    decreases y
  {
    if y == 1 then 0 else DaysBeforeYear(y - 1) + DaysInYear(y - 1)
  }

  /** Days in the months 1 .. m-1 of year y. */
  function DaysBeforeMonth(y: int, m: int): nat
    requires IsMonth(m)
    decreases m
  {
    if m == 1 then 0 else DaysBeforeMonth(y, m - 1) + DaysInMonth(y, m - 1)
  }

  /** Ordinal of a date counting 0001-01-01 as day 1: the reference day count. */
  function DayNumber(y: int, m: int, d: int): int
    requires y >= 1 && IsMonth(m)
  {
    DaysBeforeYear(y) + DaysBeforeMonth(y, m) + d
  }

  /** The calendar date one day later. */
  function NextDay(y: int, m: int, d: int): (r: (int, int, int))
    requires IsDate(y, m, d)
    ensures IsDate(r.0, r.1, r.2)
  {
    if d < DaysInMonth(y, m) then (y, m, d + 1)
    else if m < 12 then (y, m + 1, 1)
    else (y + 1, 1, 1)
  }

  /** The day count advances by exactly one from a date to the next one. */
  lemma NextDayNumber(y: int, m: int, d: int)
    requires IsDate(y, m, d)
    ensures var (y', m', d') := NextDay(y, m, d);
            DayNumber(y', m', d') == DayNumber(y, m, d) + 1
  {
    if d == DaysInMonth(y, m) && m == 12 {
      assert DaysBeforeMonth(y, 12) + 31 == DaysInYear(y) by {
        assert DaysBeforeMonth(y, 3) == 59 + (if IsLeapYear(y) then 1 else 0);
      }
    }
  }

  /**
   * Calendar.set(year, month - 1, day) is lenient: a month outside 1..12
   * rolls over into earlier or later years.
   */
  function NormalizeMonth(year: int, month: int): (r: (int, int))
    ensures IsMonth(r.1)
    ensures 12 * r.0 + r.1 == 12 * year + month
    ensures IsMonth(month) ==> r == (year, month)
  {
    (year + (month - 1) / 12, (month - 1) % 12 + 1)
  }

  /** SimpleDateFormat's "yyyy": the year zero-padded to at least four digits. */
  function Pad4(y: nat): string {
    if y < 10 then "000" + NatText(y)
    else if y < 100 then "00" + NatText(y)
    else if y < 1000 then "0" + NatText(y)
    else NatText(y)
  }

  /** SimpleDateFormat("yyyy-MM-dd") of a date. */
  function DateText(y: nat, m: int, d: int): string {
    Pad4(y) + "-" + Pad2(m) + "-" + Pad2(d)
  }

  function FourDigits(a: char, b: char, c: char, d: char): nat
    requires IsDigit(a) && IsDigit(b) && IsDigit(c) && IsDigit(d)
  {
    TwoDigits(a, b) * 100 + TwoDigits(c, d)
  }

  /** The documented "yyyy-MM-dd" format, naming a real calendar date. */
  predicate IsDateText(s: string) {
    && |s| == 10
    && IsDigit(s[0]) && IsDigit(s[1]) && IsDigit(s[2]) && IsDigit(s[3])
    && s[4] == '-' && IsDigit(s[5]) && IsDigit(s[6])
    && s[7] == '-' && IsDigit(s[8]) && IsDigit(s[9])
    && IsDate(FourDigits(s[0], s[1], s[2], s[3]), TwoDigits(s[5], s[6]), TwoDigits(s[8], s[9]))
  }

  /** A leading zero does not change the value of a digit string. */
  lemma {:induction false} LeadingZero(t: string)
    requires AllDigits(t)
    ensures AllDigits("0" + t) && DigitsValue("0" + t) == DigitsValue(t)
  {
    var z := "0" + t;
    if t == [] {
      assert z[..0] == [];
    } else {
      assert z[..|z| - 1] == "0" + t[..|t| - 1];
      LeadingZero(t[..|t| - 1]);
    }
  }

  lemma FourDigitsValue(s: string)
    requires |s| == 4 && AllDigits(s)
    ensures FourDigits(s[0], s[1], s[2], s[3]) == DigitsValue(s)
  {
    var a, b, c := s[..1], s[..2], s[..3];
    assert a[..0] == [] && b[..1] == a && c[..2] == b && s[..3] == c;
    assert DigitsValue(a) == DigitValue(s[0]);
    assert DigitsValue(b) == TwoDigits(s[0], s[1]);
    assert DigitsValue(c) == TwoDigits(s[0], s[1]) * 10 + DigitValue(s[2]);
  }

  lemma {:induction false} NatTextLength(n: nat)
    ensures n < 10 ==> |NatText(n)| == 1
    ensures 10 <= n < 100 ==> |NatText(n)| == 2
    ensures 100 <= n < 1000 ==> |NatText(n)| == 3
    ensures 1000 <= n < 10000 ==> |NatText(n)| == 4
  {
    if n >= 10 {
      NatTextLength(n / 10);
    }
  }

  lemma Pad4Chars(y: nat)
    requires y < 10000
    ensures |Pad4(y)| == 4
    ensures IsDigit(Pad4(y)[0]) && IsDigit(Pad4(y)[1]) && IsDigit(Pad4(y)[2]) && IsDigit(Pad4(y)[3])
    ensures FourDigits(Pad4(y)[0], Pad4(y)[1], Pad4(y)[2], Pad4(y)[3]) == y
  {
    var t := NatText(y);
    NatTextLength(y);
    NatTextRoundTrip(y);
    if y < 10 {
      LeadingZero(t);
      LeadingZero("0" + t);
      LeadingZero("00" + t);
      assert "0" + ("0" + ("0" + t)) == Pad4(y);
    } else if y < 100 {
      LeadingZero(t);
      LeadingZero("0" + t);
      assert "0" + ("0" + t) == Pad4(y);
    } else if y < 1000 {
      LeadingZero(t);
    }
    FourDigitsValue(Pad4(y));
  }

  /** For years 1..9999 the formatted date is well-formed and names the same date. */
  lemma DateTextWellFormed(y: nat, m: int, d: int)
    requires IsDate(y, m, d) && y < 10000
    ensures IsDateText(DateText(y, m, d))
  {
    Pad4Chars(y);
    Pad2Chars(m);
    Pad2Chars(d);
    var s := DateText(y, m, d);
    assert s[0] == Pad4(y)[0] && s[1] == Pad4(y)[1] && s[2] == Pad4(y)[2] && s[3] == Pad4(y)[3];
    assert s[5] == Pad2(m)[0] && s[6] == Pad2(m)[1];
    assert s[8] == Pad2(d)[0] && s[9] == Pad2(d)[1];
  }

  /** Different days of one month have different date texts. */
  lemma DateTextInjective(y: nat, m: int, d1: int, d2: int)
    requires 0 <= d1 < 100 && 0 <= d2 < 100
    requires DateText(y, m, d1) == DateText(y, m, d2)
    ensures d1 == d2
  {
    var p := Pad4(y) + "-" + Pad2(m) + "-";
    assert DateText(y, m, d1) == p + Pad2(d1);
    assert DateText(y, m, d2) == p + Pad2(d2);
    assert Pad2(d1) == (p + Pad2(d1))[|p|..];
    assert Pad2(d2) == (p + Pad2(d2))[|p|..];
    Pad2InRange(d1);
    Pad2InRange(d2);
  }
}
