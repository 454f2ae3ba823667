/**
 RFC 3339 timestamps, section 5.6, read and written as Go's time package does with its RFC 3339 layout.

 Reading accepts upper-case T and Z only, no leap second, and is laxer than the section in three ways: the hour
 may have one digit, the fraction may follow a comma, and an offset may reach 24 hours and 60 minutes. An instant
 is a number of nanoseconds since 0000-01-01T00:00:00Z.
 */
module Timestamps {
  import opened Wrappers
  import opened Calendar

  const SECOND := 1_000_000_000
  const DAY_SECONDS := 86400

  predicate IsDigit(c: char) {
    '0' <= c <= '9'
  }

  function DigitOf(c: char): nat
    requires IsDigit(c)
  {
    c as int - '0' as int
  }

  function DigitChar(n: int): (c: char)
    requires 0 <= n <= 9
    ensures IsDigit(c) && DigitOf(c) == n
  {
    '0' + n as char
  }

  predicate AllDigits(s: string) {
    forall i :: 0 <= i < |s| ==> IsDigit(s[i])
  }

  function Number(s: string): nat
    requires AllDigits(s)
    decreases |s|
  {
    if s == "" then 0 else 10 * Number(s[..|s| - 1]) + DigitOf(s[|s| - 1])
  }

  /** Decimal digits, at least `width` of them. */
  function Pad(n: nat, width: nat): (s: string)
    ensures AllDigits(s) && |s| >= width && |s| >= 1
    decreases n, width
  {
    if n < 10 && width <= 1 then [DigitChar(n)]
    else Pad(n / 10, if width == 0 then 0 else width - 1) + [DigitChar(n % 10)]
  }

  lemma {:induction false} PadIsRead(n: nat, width: nat)
    ensures Number(Pad(n, width)) == n
    decreases n, width
  {
    if n < 10 && width <= 1 {
      assert Number([DigitChar(n)]) == 10 * Number([]) + n;
    } else {
      var w := if width == 0 then 0 else width - 1;
      PadIsRead(n / 10, w);
      var s := Pad(n, width);
      assert s[..|s| - 1] == Pad(n / 10, w);
    }
  }

  function Power10(k: nat): nat {
    if k == 0 then 1 else 10 * Power10(k - 1)
  }

  lemma {:induction false} PadLength(n: nat, width: nat)
    requires width >= 1
    ensures n < Power10(width) ==> |Pad(n, width)| == width
    ensures n >= Power10(width) ==> |Pad(n, width)| > width
    decreases n, width
  {
    if n < 10 && width <= 1 {
      assert Power10(1) == 10 * Power10(0);
    } else if width == 1 {
      assert |Pad(n / 10, 0)| >= 1;
      assert Power10(1) == 10 * Power10(0);
    } else {
      PadLength(n / 10, width - 1);
      assert Power10(width) == 10 * Power10(width - 1);
    }
  }

  // Writing

  function YearText(year: int): string {
    if year < 0 then "-" + Pad(-year, 4) else Pad(year, 4)
  }

  function SecondOfDay(instant: int): nat {
    instant / SECOND % DAY_SECONDS
  }

  function DateText(d: Date): string
    requires ValidDate(d)
  {
    YearText(d.year) + "-" + Pad(d.month, 2) + "-" + Pad(d.day, 2)
  }

  function ClockText(second: nat): string {
    Pad(second / 3600, 2) + ":" + Pad(second / 60 % 60, 2) + ":" + Pad(second % 60, 2)
  }

  /** The instant in UTC, to the second. */
  function Write(instant: int): string {
    DateText(DateOf(instant / SECOND / DAY_SECONDS)) + "T" + ClockText(SecondOfDay(instant)) + "Z"
  }

  // Reading: each part answers what it read and what is left of the text

  /** Exactly `width` digits naming a number from `low` to `high`. */
  function ReadNumber(s: string, width: nat, low: nat, high: nat): Option<(nat, string)> {
    if |s| >= width && AllDigits(s[..width]) && low <= Number(s[..width]) <= high
    then Some((Number(s[..width]), s[width..]))
    else None
  }

  function Skip(s: string, c: char): Option<string> {
    if |s| > 0 && s[0] == c then Some(s[1..]) else None
  }

  function ReadDate(s: string): Option<(Date, string)> {
    match ReadNumber(s, 4, 0, 9999)
    case None => None
    case Some((year, s1)) =>
      match Skip(s1, '-')
      case None => None
      case Some(s2) =>
        match ReadNumber(s2, 2, 1, 12)
        case None => None
        case Some((month, s3)) =>
          match Skip(s3, '-')
          case None => None
          case Some(s4) =>
            match ReadNumber(s4, 2, 1, MonthDays(year, month))
            case None => None
            case Some((day, rest)) => Some((Date(year, month, day), rest))
  }

  function ReadHour(s: string): Option<(nat, string)> {
    if |s| >= 2 && IsDigit(s[0]) && !IsDigit(s[1]) then ReadNumber(s, 1, 0, 9) else ReadNumber(s, 2, 0, 23)
  }

  function ReadClock(s: string): Option<(nat, string)> {
    match ReadHour(s)
    case None => None
    case Some((hour, s1)) =>
      match Skip(s1, ':')
      case None => None
      case Some(s2) =>
        match ReadNumber(s2, 2, 0, 59)
        case None => None
        case Some((minute, s3)) =>
          match Skip(s3, ':')
          case None => None
          case Some(s4) =>
            match ReadNumber(s4, 2, 0, 59)
            case None => None
            case Some((second, rest)) => Some((hour * 3600 + minute * 60 + second, rest))
  }

  function DigitsLength(s: string): (n: nat)
    ensures n <= |s| && AllDigits(s[..n])
    decreases |s|
  {
    if s == "" || !IsDigit(s[0]) then 0 else
    var n := DigitsLength(s[1..]);
    assert s[..n + 1] == [s[0]] + s[1..][..n];
    n + 1
  }

  /** Nanoseconds of a fraction; digits past the ninth are dropped. */
  function Nanoseconds(digits: string): (n: nat)
    requires AllDigits(digits)
    ensures n < SECOND
  {
    var nine := if |digits| > 9 then digits[..9] else digits;
    FractionBound(nine);
    Number(nine) * Power10(9 - |nine|)
  }

  lemma {:induction false} NumberBound(s: string)
    requires AllDigits(s)
    ensures Number(s) < Power10(|s|)
    decreases |s|
  {
    if s != "" { NumberBound(s[..|s| - 1]); }
  }

  lemma {:induction false} PowerSplits(a: nat, b: nat)
    ensures Power10(a) * Power10(b) == Power10(a + b)
    decreases a
  {
    if a > 0 {
      PowerSplits(a - 1, b);
      assert Power10(a) * Power10(b) == 10 * (Power10(a - 1) * Power10(b));
    }
  }

  lemma FractionBound(s: string)
    requires AllDigits(s) && |s| <= 9
    ensures Number(s) * Power10(9 - |s|) < SECOND
  {
    var n, p, q := Number(s), Power10(|s|), Power10(9 - |s|);
    NumberBound(s);
    PowerSplits(|s|, 9 - |s|);
    PositivePower(9 - |s|);
    NinthPower();
    assert n * q < p * q;
  }

  lemma NinthPower()
    ensures Power10(9) == SECOND
  {
    assert Power10(3) == 1000;
    PowerSplits(3, 3);
    PowerSplits(6, 3);
  }

  lemma {:induction false} PositivePower(k: nat)
    ensures Power10(k) > 0
  {
    if k > 0 { PositivePower(k - 1); }
  }

  function ReadFraction(s: string): (nat, string) {
    if |s| >= 2 && s[0] in {'.', ','} && IsDigit(s[1]) then
      var n := DigitsLength(s[1..]);
      (Nanoseconds(s[1..][..n]), s[1..][n..])
    else (0, s)
  }

  /** The offset from UTC in seconds; nothing may follow it. */
  function ReadOffset(s: string): Option<int> {
    if s == "Z" then Some(0)
    else if |s| != 6 || s[0] !in {'+', '-'} || s[3] != ':' then None else
    match ReadNumber(s[1..], 2, 0, 24)
    case None => None
    case Some((hours, _)) =>
      match ReadNumber(s[4..], 2, 0, 60)
      case None => None
      case Some((minutes, _)) =>
        var offset := (hours * 60 + minutes) * 60;
        Some(if s[0] == '-' then -offset else offset)
  }

  function InstantOf(d: Date, second: nat, nanos: nat, offset: int): int
    requires d.year >= 0 && ValidDate(d)
  {
    (DayNumber(d) * DAY_SECONDS + second - offset) * SECOND + nanos
  }

  function ReadTime(date: Date, s: string): Option<int>
    requires date.year >= 0 && ValidDate(date)
  {
    match ReadClock(s)
    case None => None
    case Some((second, s1)) =>
      var (nanos, s2) := ReadFraction(s1);
      match ReadOffset(s2)
      case None => None
      case Some(offset) => Some(InstantOf(date, second, nanos, offset))
  }

  function Read(s: string): Option<int> {
    match ReadDate(s)
    case None => None
    case Some((date, s1)) =>
      match Skip(s1, 'T')
      case None => None
      case Some(s2) => ReadTime(date, s2)
  }

  // What was written is read back

  lemma NumberIsRead(n: nat, width: nat, rest: string, low: nat, high: nat)
    requires width >= 1 && n < Power10(width) && low <= n <= high
    ensures ReadNumber(Pad(n, width) + rest, width, low, high) == Some((n, rest))
  {
    PadIsRead(n, width);
    PadLength(n, width);
    var s := Pad(n, width) + rest;
    assert s[..width] == Pad(n, width) && s[width..] == rest;
  }

  lemma SkipIsRead(c: char, rest: string)
    ensures Skip([c] + rest, c) == Some(rest)
  {
    assert ([c] + rest)[1..] == rest;
  }

  lemma DateIsRead(d: Date, rest: string)
    requires ValidDate(d) && 0 <= d.year <= 9999
    ensures ReadDate(DateText(d) + rest) == Some((d, rest))
  {
    assert Power10(2) == 100 && Power10(4) == 10000;
    var s4 := Pad(d.day, 2) + rest;
    var s2 := Pad(d.month, 2) + (['-'] + s4);
    NumberIsRead(d.day, 2, rest, 1, MonthDays(d.year, d.month));
    SkipIsRead('-', s4);
    NumberIsRead(d.month, 2, ['-'] + s4, 1, 12);
    SkipIsRead('-', s2);
    NumberIsRead(d.year, 4, ['-'] + s2, 0, 9999);
    assert DateText(d) + rest == Pad(d.year, 4) + (['-'] + s2);
  }

  lemma ClockParts(second: nat)
    requires second < DAY_SECONDS
    ensures second == second / 3600 * 3600 + second / 60 % 60 * 60 + second % 60
    ensures second / 3600 <= 23
  {
    assert second == second / 60 * 60 + second % 60;
    assert second / 60 == second / 60 / 60 * 60 + second / 60 % 60;
    assert second / 60 / 60 == second / 3600;
  }

  lemma HourIsRead(hour: nat, rest: string)
    requires hour <= 23
    ensures ReadHour(Pad(hour, 2) + rest) == Some((hour, rest))
  {
    assert Power10(2) == 100;
    PadLength(hour, 2);
    NumberIsRead(hour, 2, rest, 0, 23);
    assert IsDigit((Pad(hour, 2) + rest)[1]);
  }

  lemma ClockTextParts(second: nat, rest: string)
    ensures ClockText(second) + rest == Pad(second / 3600, 2) + ([':'] + (Pad(second / 60 % 60, 2)
                                        + ([':'] + (Pad(second % 60, 2) + rest))))
  {
  }

  lemma ClockIsRead(second: nat, rest: string)
    requires second < DAY_SECONDS
    ensures ReadClock(ClockText(second) + rest) == Some((second, rest))
  {
    assert Power10(2) == 100;
    var s4 := Pad(second % 60, 2) + rest;
    var s2 := Pad(second / 60 % 60, 2) + ([':'] + s4);
    ClockParts(second);
    ClockTextParts(second, rest);
    NumberIsRead(second % 60, 2, rest, 0, 59);
    SkipIsRead(':', s4);
    NumberIsRead(second / 60 % 60, 2, [':'] + s4, 0, 59);
    SkipIsRead(':', s2);
    HourIsRead(second / 3600, [':'] + s2);
  }

  /** The first instant of year 10000. */
  const YEAR_10000 := 315_569_520_000 * SECOND

  lemma FourDigitYears(day: int)
    requires 0 <= day < DaysBeforeYear(10000)
    ensures 0 <= DateOf(day).year <= 9999
  {
    var d := DateOf(day);
    DayOfYearBounds(d);
    if d.year >= 10000 { YearsAreOrdered(10000, d.year); }
  }

  lemma InstantParts(instant: int)
    ensures instant / SECOND == instant / SECOND / DAY_SECONDS * DAY_SECONDS + SecondOfDay(instant)
    ensures 0 <= SecondOfDay(instant) < DAY_SECONDS
  {
  }

  lemma TimeIsRead(date: Date, second: nat, tail: string)
    requires ValidDate(date) && 0 <= date.year && second < DAY_SECONDS
    requires ReadFraction(tail) == (0, tail)
    ensures ReadTime(date, ClockText(second) + tail)
            == if ReadOffset(tail).Some? then Some(InstantOf(date, second, 0, ReadOffset(tail).value)) else None
  {
    ClockIsRead(second, tail);
  }

  /** A date, a clock and what follows are read in that order. */
  lemma PartsAreRead(date: Date, second: nat, tail: string)
    requires ValidDate(date) && 0 <= date.year <= 9999 && second < DAY_SECONDS
    requires ReadFraction(tail) == (0, tail)
    ensures Read(DateText(date) + "T" + ClockText(second) + tail)
            == if ReadOffset(tail).Some? then Some(InstantOf(date, second, 0, ReadOffset(tail).value)) else None
  {
    var s2 := ClockText(second) + tail;
    DateIsRead(date, ['T'] + s2);
    SkipIsRead('T', s2);
    TimeIsRead(date, second, tail);
    assert DateText(date) + "T" + ClockText(second) + tail == DateText(date) + (['T'] + s2);
  }

  function OffsetText(west: bool, hours: nat, minutes: nat): string {
    (if west then "-" else "+") + Pad(hours, 2) + ":" + Pad(minutes, 2)
  }

  lemma OffsetTextIsRead(west: bool, hours: nat, minutes: nat)
    requires hours <= 23 && minutes <= 59
    ensures ReadOffset(OffsetText(west, hours, minutes)) ==
            Some(if west then -60 * (60 * hours + minutes) else 60 * (60 * hours + minutes))
  {
    var h, m := Pad(hours, 2), Pad(minutes, 2);
    var offset := OffsetText(west, hours, minutes);
    assert Power10(2) == 100;
    PadLength(hours, 2);
    PadLength(minutes, 2);
    NumberIsRead(hours, 2, ":" + m, 0, 24);
    NumberIsRead(minutes, 2, "", 0, 60);
    assert offset[1..] == h + (":" + m);
    assert offset[4..] == m + "";
    assert offset[3] == ':' && |offset| == 6;
  }

  /** A local time with an offset names the instant that many minutes away. */
  lemma OffsetIsRead(date: Date, second: nat, west: bool, hours: nat, minutes: nat)
    requires ValidDate(date) && 0 <= date.year <= 9999 && second < DAY_SECONDS && hours <= 23 && minutes <= 59
    ensures Read(DateText(date) + "T" + ClockText(second) + OffsetText(west, hours, minutes))
            == Some(InstantOf(date, second, 0, if west then -60 * (60 * hours + minutes)
                else 60 * (60 * hours + minutes)))
  {
    var tail := OffsetText(west, hours, minutes);
    assert tail[0] in {'+', '-'};
    OffsetTextIsRead(west, hours, minutes);
    PartsAreRead(date, second, tail);
  }

  /** Every whole second of years 0 to 9999 survives being written and read. */
  lemma WrittenIsRead(instant: int)
    requires 0 <= instant < YEAR_10000
    ensures Read(Write(instant)) == Some(instant / SECOND * SECOND)
  {
    var day, second := instant / SECOND / DAY_SECONDS, SecondOfDay(instant);
    InstantParts(instant);
    FourDigitYears(day);
    assert ReadFraction("Z") == (0, "Z");
    PartsAreRead(DateOf(day), second, "Z");
    assert InstantOf(DateOf(day), second, 0, 0) == instant / SECOND * SECOND;
  }

  lemma NegativeYearIsNotRead(text: string)
    requires |text| > 0 && text[0] == '-'
    ensures Read(text) == None
  {
    if |text| >= 4 { assert text[..4][0] == '-'; }
  }

  /** Five digits are not a year: the fifth is where the dash belongs. */
  lemma LongYearIsNotRead(text: string)
    requires |text| > 4 && IsDigit(text[4])
    ensures Read(text) == None
  {
    assert ReadNumber(text, 4, 0, 9999).Some? ==> ReadNumber(text, 4, 0, 9999).value.1[0] == text[4];
  }

  lemma LateYearText(instant: int)
    requires instant >= YEAR_10000
    ensures |Write(instant)| > 4 && IsDigit(Write(instant)[4])
  {
    var day := instant / SECOND / DAY_SECONDS;
    InstantParts(instant);
    LateYears(day);
    assert Power10(4) == 10000;
    PadLength(DateOf(day).year, 4);
    assert Write(instant)[4] == Pad(DateOf(day).year, 4)[4];
  }

  /** A year before 0 or after 9999 is written in a form that cannot be read. */
  lemma OtherYearsAreNotRead(instant: int)
    requires instant < 0 || instant >= YEAR_10000
    ensures Read(Write(instant)) == None
  {
    if instant < 0 {
      assert instant / SECOND / DAY_SECONDS < 0;
      NegativeYearIsNotRead(Write(instant));
    } else {
      LateYearText(instant);
      LongYearIsNotRead(Write(instant));
    }
  }

  lemma LateYears(day: int)
    requires day >= DaysBeforeYear(10000)
    ensures DateOf(day).year >= 10000
  {
    var d := DateOf(day);
    DayOfYearBounds(d);
    YearStep(d.year);
    if d.year < 10000 { YearsAreOrdered(d.year, 10000); }
  }
}
