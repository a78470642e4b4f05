/**
 * Character-level text helpers shared by the Kotlin and JavaScript models:
 * decimal digits, Java's "%02d" formatting, the "HH:mm" clock format,
 * Kotlin's String.compareTo, String.split and String.toInt.
 */
module Text {
  import opened Wrappers

  predicate IsDigit(c: char) {
    '0' <= c <= '9'
  }

  predicate AllDigits(s: string) {
    forall i :: 0 <= i < |s| ==> IsDigit(s[i])
  }

  function DigitValue(c: char): nat
    requires IsDigit(c)
  {
    c as int - '0' as int
  }

  function DigitChar(d: nat): (c: char)
    requires d < 10
    ensures IsDigit(c) && DigitValue(c) == d
  {
    ('0' as int + d) as char
  }

  /** The value of a run of decimal digits, most significant first. */
  function DigitsValue(s: string): nat
    requires AllDigits(s)
  {
    if s == [] then 0 else DigitsValue(s[..|s| - 1]) * 10 + DigitValue(s[|s| - 1])
  }

  /** Decimal text of a natural number, without leading zeros. */
  function NatText(n: nat): (s: string)
    ensures |s| >= 1 && AllDigits(s)
  {
    if n < 10 then [DigitChar(n)] else NatText(n / 10) + [DigitChar(n % 10)]
  }

  /** Kotlin's string template "$n" for an Int or Long. */
  function IntText(n: int): string {
    if n < 0 then "-" + NatText(-n) else NatText(n)
  }

  /** Reading the decimal text of `n` back gives `n`, and the text has no leading zero. */
  lemma {:induction false} NatTextRoundTrip(n: nat)
    ensures DigitsValue(NatText(n)) == n
    ensures |NatText(n)| > 1 ==> NatText(n)[0] != '0'
    ensures n < 10 <==> |NatText(n)| == 1
  {
    if n >= 10 {
      NatTextRoundTrip(n / 10);
      var s := NatText(n / 10) + [DigitChar(n % 10)];
      assert s[..|s| - 1] == NatText(n / 10);
    }
  }

  /** Java's String.format("%02d", n): at least two characters, zero-padded, sign first. */
  function Pad2(n: int): string {
    if 0 <= n < 10 then "0" + NatText(n) else IntText(n)
  }

  lemma Pad2InRange(n: int)
    requires 0 <= n < 100
    ensures |Pad2(n)| == 2 && AllDigits(Pad2(n)) && DigitsValue(Pad2(n)) == n
  {
    NatTextRoundTrip(n);
    if n >= 10 {
      NatTextRoundTrip(n / 10);
      assert NatText(n) == NatText(n / 10) + [DigitChar(n % 10)];
    } else {
      var s := Pad2(n);
      assert s[..1] == "0";
    }
  }

  /** The "%02d:%02d" format of an hour and a minute. */
  function ClockText(hour: int, minute: int): string {
    Pad2(hour) + ":" + Pad2(minute)
  }

  function TwoDigits(a: char, b: char): nat
    requires IsDigit(a) && IsDigit(b)
  {
    DigitValue(a) * 10 + DigitValue(b)
  }

  /** The documented "HH:mm" format: 24-hour clock, both fields zero-padded. */
  predicate IsClockText(s: string) {
    && |s| == 5
    && IsDigit(s[0]) && IsDigit(s[1]) && s[2] == ':' && IsDigit(s[3]) && IsDigit(s[4])
    && TwoDigits(s[0], s[1]) <= 23
    && TwoDigits(s[3], s[4]) <= 59
  }

  function ClockHour(s: string): nat
    requires IsClockText(s)
  {
    TwoDigits(s[0], s[1])
  }

  function ClockMinute(s: string): nat
    requires IsClockText(s)
  {
    TwoDigits(s[3], s[4])
  }

  /** Minutes since midnight denoted by a well-formed "HH:mm" string. */
  function ClockMinutes(s: string): (r: nat)
    requires IsClockText(s)
    ensures r < 24 * 60
  {
    60 * ClockHour(s) + ClockMinute(s)
  }

  lemma Pad2Chars(n: int)
    requires 0 <= n < 100
    ensures |Pad2(n)| == 2 && IsDigit(Pad2(n)[0]) && IsDigit(Pad2(n)[1])
    ensures TwoDigits(Pad2(n)[0], Pad2(n)[1]) == n
  {
    Pad2InRange(n);
    var s := Pad2(n);
    assert s[..1] == [s[0]];
    assert s[..|s| - 1] == [s[0]];
    assert DigitsValue([s[0]]) == DigitValue(s[0]) by {
      assert [s[0]][..0] == [];
    }
  }

  /** "%02d:%02d" of an in-range hour and minute is well-formed and denotes 60·hour + minute. */
  lemma ClockTextRoundTrip(hour: int, minute: int)
    requires 0 <= hour < 24 && 0 <= minute < 60
    ensures IsClockText(ClockText(hour, minute))
    ensures ClockHour(ClockText(hour, minute)) == hour
    ensures ClockMinute(ClockText(hour, minute)) == minute
    ensures ClockMinutes(ClockText(hour, minute)) == 60 * hour + minute
  {
    Pad2Chars(hour);
    Pad2Chars(minute);
    var s := ClockText(hour, minute);
    assert s[0] == Pad2(hour)[0] && s[1] == Pad2(hour)[1];
    assert s[3] == Pad2(minute)[0] && s[4] == Pad2(minute)[1];
  }

  /** Every well-formed "HH:mm" string is the "%02d:%02d" text of its own fields. */
  lemma ClockTextCanonical(s: string)
    requires IsClockText(s)
    ensures ClockText(ClockHour(s), ClockMinute(s)) == s
  {
    var h, m := ClockHour(s), ClockMinute(s);
    Pad2Chars(h);
    Pad2Chars(m);
    TwoDigitsInjective(Pad2(h)[0], Pad2(h)[1], s[0], s[1]);
    TwoDigitsInjective(Pad2(m)[0], Pad2(m)[1], s[3], s[4]);
    var t := ClockText(h, m);
    assert |t| == 5;
    assert t[0] == s[0] && t[1] == s[1] && t[2] == s[2] && t[3] == s[3] && t[4] == s[4];
  }

  /** Two digit pairs with the same value are the same pair. */
  lemma TwoDigitsInjective(a: char, b: char, c: char, d: char)
    requires IsDigit(a) && IsDigit(b) && IsDigit(c) && IsDigit(d)
    requires TwoDigits(a, b) == TwoDigits(c, d)
    ensures a == c && b == d
  {
  }

  /** Kotlin's `a < b` on strings: lexicographic order of characters, a proper prefix first. */
  function LexLess(a: string, b: string): bool {
    if a == [] then b != []
    else if b == [] then false
    else if a[0] != b[0] then a[0] < b[0]
    else LexLess(a[1..], b[1..])
  }

  /** For zero-padded "HH:mm" strings, string order is the order of minutes since midnight. */
  lemma ClockOrder(a: string, b: string)
    requires IsClockText(a) && IsClockText(b)
    ensures LexLess(a, b) <==> ClockMinutes(a) < ClockMinutes(b)
  {
    if a[0] == b[0] {
      assert LexLess(a, b) == LexLess(a[1..], b[1..]);
      if a[1] == b[1] {
        assert LexLess(a[1..], b[1..]) == LexLess(a[2..], b[2..]);
        assert LexLess(a[2..], b[2..]) == LexLess(a[3..], b[3..]);
        if a[3] == b[3] {
          assert LexLess(a[3..], b[3..]) == LexLess(a[4..], b[4..]);
          if a[4] == b[4] {
            assert LexLess(a[4..], b[4..]) == LexLess(a[5..], b[5..]);
          }
        }
      }
    }
  }

  /** Length of the longest prefix of `s` made of decimal digits. */
  function DigitRun(s: string): (n: nat)
    ensures n <= |s| && AllDigits(s[..n])
    ensures n < |s| ==> !IsDigit(s[n])
  {
    if s == [] || !IsDigit(s[0]) then 0
    else
      var k := DigitRun(s[1..]);
      assert s[..k + 1] == [s[0]] + s[1..][..k];
      k + 1
  }

  /**
   * SimpleDateFormat("HH:mm").parse in its default lenient mode: a run of
   * digits for the hour, ':', a run of digits for the minute, anything after
   * that ignored.  Out-of-range fields are accepted and roll over, so the
   * result is the unreduced count 60·hour + minute.
   */
  function ParseClockText(s: string): Option<nat> {
    var i := DigitRun(s);
    if i == 0 || i == |s| || s[i] != ':' then None
    else
      var rest := s[i + 1..];
      var j := DigitRun(rest);
      if j == 0 then None
      else Some(60 * DigitsValue(s[..i]) + DigitsValue(rest[..j]))
  }

  /** Parsing a well-formed "HH:mm" string yields exactly the minutes it denotes. */
  lemma ParseWellFormedClock(s: string)
    requires IsClockText(s)
    ensures ParseClockText(s) == Some(ClockMinutes(s))
  {
    assert DigitRun(s[4..]) == 1;
    assert DigitRun(s[3..]) == 2;
    assert DigitRun(s[2..]) == 0;
    assert DigitRun(s[1..]) == 1;
    assert DigitRun(s) == 2;
    var rest := s[3..];
    assert s[..2][..1] == [s[0]];
    assert rest[..2][..1] == [s[3]];
    assert [s[0]][..0] == [] && [s[3]][..0] == [];
    assert DigitsValue([s[0]]) == DigitValue(s[0]);
    assert DigitsValue([s[3]]) == DigitValue(s[3]);
    assert DigitsValue(s[..2]) == TwoDigits(s[0], s[1]);
    assert DigitsValue(rest[..2]) == TwoDigits(s[3], s[4]);
  }

  /** `s` contains no `c`. */
  predicate Lacks(s: string, c: char) {
    forall i :: 0 <= i < |s| ==> s[i] != c
  }

  /** Kotlin's String.split(sep): every piece, empty ones included, in order. */
  function Split(s: string, sep: char): (parts: seq<string>)
    ensures |parts| >= 1
    ensures Lacks(s, sep) ==> parts == [s]
  {
    if s == [] then [""]
    else
      var rest := Split(s[1..], sep);
      assert Lacks(s, sep) ==> Lacks(s[1..], sep) && s == [s[0]] + s[1..];
      if s[0] == sep then [""] + rest
      else [[s[0]] + rest[0]] + rest[1..]
  }

  /** Splitting at the first separator: the piece before it, then the split of the remainder. */
  lemma {:induction false} SplitFirst(a: string, sep: char, b: string)
    requires Lacks(a, sep)
    ensures Split(a + [sep] + b, sep) == [a] + Split(b, sep)
  {
    if a == [] {
      assert a + [sep] + b == [sep] + b;
      assert ([sep] + b)[1..] == b;
    } else {
      assert (a + [sep] + b)[1..] == a[1..] + [sep] + b;
      SplitFirst(a[1..], sep, b);
      assert [a[0]] + a[1..] == a;
    }
  }

  const IntMin: int := -0x8000_0000
  const IntMax: int := 0x7FFF_FFFF

  /**
   * Kotlin's String.toInt() on ASCII text: an optional '+' or '-', then at
   * least one decimal digit, and the value must fit a 32-bit Int; anything
   * else throws NumberFormatException, modelled as None.
   */
  function ToIntOrNull(s: string): (r: Option<int>)
    ensures r.Some? ==> IntMin <= r.value <= IntMax
  {
    if s == [] then None
    else if s[0] == '-' || s[0] == '+' then
      if |s| == 1 || !AllDigits(s[1..]) then None
      else
        var m: int := DigitsValue(s[1..]);
        var v := if s[0] == '-' then -m else m;
        if IntMin <= v <= IntMax then Some(v) else None
    else if !AllDigits(s) then None
    else if DigitsValue(s) <= IntMax then Some(DigitsValue(s))
    else None
  }

  /** toInt reads back the "$n" text of every 32-bit Int, negative ones included. */
  lemma ToIntOfIntText(n: int)
    requires IntMin <= n <= IntMax
    ensures ToIntOrNull(IntText(n)) == Some(n)
  {
    if n < 0 {
      var t := NatText(-n);
      NatTextRoundTrip(-n);
      assert IntText(n) == ['-'] + t;
      ToIntSign(t);
    } else {
      ToIntOfNatText(n);
    }
  }

  lemma ToIntOfNatText(n: nat)
    requires n <= IntMax
    ensures ToIntOrNull(NatText(n)) == Some(n)
  {
    NatTextRoundTrip(n);
    assert IsDigit(NatText(n)[0]);
  }

  /** A leading '+' is accepted and changes nothing; a leading '-' negates within the Int range. */
  lemma ToIntSign(t: string)
    requires t != [] && AllDigits(t)
    ensures ToIntOrNull(['+'] + t) == ToIntOrNull(t)
    ensures var v: int := DigitsValue(t);
            ToIntOrNull(['-'] + t) == if -v >= IntMin then Some(-v) else None
  {
    assert (['+'] + t)[1..] == t;
    assert (['-'] + t)[1..] == t;
    assert IsDigit(t[0]);
  }

  /** toInt of a "%02d" field in 0..99 gives the number back. */
  lemma ToIntOfPad2(n: int)
    requires 0 <= n < 100
    ensures ToIntOrNull(Pad2(n)) == Some(n)
  {
    Pad2Chars(n);
    Pad2InRange(n);
  }
}
