/**
 Which texts are timestamps, and which instants they name: a grammar of the parts of a timestamp, independent of the
 order in which they are read, with the calendar given by its tables.
 */
module TimestampGrammar {
  import opened Wrappers
  import opened Calendar
  import opened Timestamps

  datatype Parts = Parts(
    year: string, month: string, day: string, hour: string, minute: string, second: string, fraction: string,
    zone: string)

  function ClockPart(p: Parts): string {
    p.hour + (":" + (p.minute + (":" + (p.second + (p.fraction + p.zone)))))
  }

  function TextOf(p: Parts): string {
    p.year + ("-" + (p.month + ("-" + (p.day + ("T" + ClockPart(p))))))
  }

  /** Digits, so many of them, naming a number in a range. */
  predicate Digits(s: string, width: nat, low: int, high: int) {
    |s| == width && AllDigits(s) && low <= Number(s) <= high
  }

  predicate DateGrammar(p: Parts) {
    && Digits(p.year, 4, 0, 9999) && Digits(p.month, 2, 1, 12) && |p.day| == 2 && AllDigits(p.day)
    && 1 <= Number(p.day) <=
       [31, 28 + ExtraDay(Number(p.year)), 31, 30, 31, 30, 31, 31, 30, 31, 30, 31][Number(p.month) - 1]
  }

  predicate ClockGrammar(p: Parts) {
    && (Digits(p.hour, 1, 0, 9) || Digits(p.hour, 2, 0, 23))
    && Digits(p.minute, 2, 0, 59) && Digits(p.second, 2, 0, 59)
  }

  predicate FractionGrammar(s: string) {
    s == "" || (|s| >= 2 && s[0] in {'.', ','} && AllDigits(s[1..]))
  }

  predicate ZoneGrammar(s: string) {
    s == "Z" ||
    (|s| == 6 && s[0] in {'+', '-'} && Digits(s[1..3], 2, 0, 24) && s[3] == ':' && Digits(s[4..], 2, 0, 60))
  }

  predicate Grammar(p: Parts) {
    DateGrammar(p) && ClockGrammar(p) && FractionGrammar(p.fraction) && ZoneGrammar(p.zone)
  }

  /** The day by the table of the days before each month. */
  function DayNamed(p: Parts): int
    requires DateGrammar(p)
  {
    DaysBeforeYear(Number(p.year)) + (if Number(p.month) > 2 then ExtraDay(Number(p.year)) else 0) + Number(p.day) - 1
    + [0, 31, 59, 90, 120, 151, 181, 212, 243, 273, 304, 334][Number(p.month) - 1]
  }

  /** A fraction filled up with zeros to nine digits, and cut there. */
  function NanosNamed(fraction: string): nat
    requires FractionGrammar(fraction)
  {
    if fraction == "" then 0 else
    var filled := fraction[1..] + "000000000";
    assert AllDigits(filled[..9]);
    Number(filled[..9])
  }

  /** Minutes east of UTC. */
  function ZoneNamed(zone: string): int
    requires ZoneGrammar(zone)
  {
    if zone == "Z" then 0
    else if zone[0] == '+' then 60 * Number(zone[1..3]) + Number(zone[4..])
    else -(60 * Number(zone[1..3]) + Number(zone[4..]))
  }

  function InstantNamed(p: Parts): int
    requires Grammar(p)
  {
    var minutes := 60 * Number(p.hour) + Number(p.minute) - ZoneNamed(p.zone);
    (DayNamed(p) * 86400 + 60 * minutes + Number(p.second)) * 1_000_000_000 + NanosNamed(p.fraction)
  }

  // What follows the grammar is read

  lemma DigitsAreRead(s: string, rest: string, width: nat, low: nat, high: nat)
    requires Digits(s, width, low, high)
    ensures ReadNumber(s + rest, width, low, high) == Some((Number(s), rest))
  {
    assert (s + rest)[..width] == s && (s + rest)[width..] == rest;
  }

  lemma MarkIsRead(mark: string, rest: string)
    requires |mark| == 1
    ensures Skip(mark + rest, mark[0]) == Some(rest)
  {
    assert (mark + rest)[1..] == rest;
  }

  lemma DatePartIsRead(p: Parts, rest: string)
    requires DateGrammar(p)
    ensures var date := Date(Number(p.year), Number(p.month), Number(p.day));
            ValidDate(date) && ReadDate(p.year + ("-" + (p.month + ("-" + (p.day + rest))))) == Some((date, rest))
  {
    var s4, date := p.day + rest, Date(Number(p.year), Number(p.month), Number(p.day));
    var s2 := p.month + ("-" + s4);
    DatesOfTheYear(date);
    DigitsAreRead(p.year, "-" + s2, 4, 0, 9999);
    MarkIsRead("-", s2);
    DigitsAreRead(p.month, "-" + s4, 2, 1, 12);
    MarkIsRead("-", s4);
    DigitsAreRead(p.day, rest, 2, 1, MonthDays(date.year, date.month));
  }

  lemma HourPartIsRead(hour: string, rest: string)
    requires Digits(hour, 1, 0, 9) || Digits(hour, 2, 0, 23)
    ensures ReadHour(hour + (":" + rest)) == Some((Number(hour), ":" + rest))
  {
    var s := hour + (":" + rest);
    if |hour| == 1 {
      assert s[0] == hour[0] && s[1] == ':';
      DigitsAreRead(hour, ":" + rest, 1, 0, 9);
    } else {
      assert s[1] == hour[1];
      DigitsAreRead(hour, ":" + rest, 2, 0, 23);
    }
  }

  lemma ClockPartIsRead(p: Parts, rest: string)
    requires ClockGrammar(p)
    ensures ReadClock(p.hour + (":" + (p.minute + (":" + (p.second + rest))))) ==
            Some((3600 * Number(p.hour) + 60 * Number(p.minute) + Number(p.second), rest))
  {
    var s4 := p.second + rest;
    var s2 := p.minute + (":" + s4);
    HourPartIsRead(p.hour, s2);
    MarkIsRead(":", s2);
    DigitsAreRead(p.minute, ":" + s4, 2, 0, 59);
    MarkIsRead(":", s4);
    DigitsAreRead(p.second, rest, 2, 0, 59);
  }

  lemma {:induction false} DigitsEnd(digits: string, rest: string)
    requires AllDigits(digits) && rest != "" && !IsDigit(rest[0])
    ensures DigitsLength(digits + rest) == |digits|
  {
    if digits == "" {
      assert digits + rest == rest;
    } else {
      DigitsEnd(digits[1..], rest);
      assert (digits + rest)[1..] == digits[1..] + rest;
    }
  }

  lemma TenTimes(a: nat, b: nat)
    ensures 10 * (a * b) == a * (10 * b)
  {
  }

  lemma {:induction false} ZerosShift(digits: string, zeros: string)
    requires AllDigits(digits) && AllDigits(zeros) && forall i :: 0 <= i < |zeros| ==> zeros[i] == '0'
    ensures Number(digits + zeros) == Number(digits) * Power10(|zeros|)
    decreases |zeros|
  {
    if zeros == "" {
      assert digits + zeros == digits;
    } else {
      var fewer := zeros[..|zeros| - 1];
      ZerosShift(digits, fewer);
      assert (digits + zeros)[..|digits + zeros| - 1] == digits + fewer;
      TenTimes(Number(digits), Power10(|fewer|));
      assert Number(digits + zeros) == 10 * Number(digits + fewer);
    }
  }

  /** Nanoseconds are the digits filled up to nine. */
  lemma NanosecondsAreFilled(digits: string)
    requires digits != "" && AllDigits(digits)
    ensures var filled := digits + "000000000"; AllDigits(filled[..9]) && Nanoseconds(digits) == Number(filled[..9])
  {
    var filled := digits + "000000000";
    if |digits| > 9 {
      assert filled[..9] == digits[..9];
      assert Power10(0) == 1;
    } else {
      var zeros := "000000000"[..9 - |digits|];
      assert filled[..9] == digits + zeros;
      ZerosShift(digits, zeros);
    }
  }

  lemma FractionPartIsRead(fraction: string, zone: string)
    requires FractionGrammar(fraction) && ZoneGrammar(zone)
    ensures ReadFraction(fraction + zone) == (NanosNamed(fraction), zone)
  {
    var s := fraction + zone;
    if fraction == "" {
      assert s == zone;
    } else {
      var digits := fraction[1..];
      assert s[0] == fraction[0] && s[1] == digits[0] && s[1..] == digits + zone;
      DigitsEnd(digits, zone);
      assert (digits + zone)[..|digits|] == digits && (digits + zone)[|digits|..] == zone;
      NanosecondsAreFilled(digits);
    }
  }

  lemma ZonePartIsRead(zone: string)
    requires ZoneGrammar(zone)
    ensures ReadOffset(zone) == Some(60 * ZoneNamed(zone))
  {
    if zone != "Z" {
      assert zone[1..] == zone[1..3] + zone[3..] && zone[4..] == zone[4..] + "";
      DigitsAreRead(zone[1..3], zone[3..], 2, 0, 24);
      DigitsAreRead(zone[4..], "", 2, 0, 60);
    }
  }

  lemma TimePartIsRead(date: Date, p: Parts, second: nat, nanos: nat, offset: int)
    requires ValidDate(date) && date.year >= 0 && ClockGrammar(p)
    requires FractionGrammar(p.fraction) && ZoneGrammar(p.zone)
    requires second == 3600 * Number(p.hour) + 60 * Number(p.minute) + Number(p.second)
    requires nanos == NanosNamed(p.fraction) && offset == 60 * ZoneNamed(p.zone)
    ensures ReadTime(date, ClockPart(p)) == Some(InstantOf(date, second, nanos, offset))
  {
    ClockPartIsRead(p, p.fraction + p.zone);
    FractionPartIsRead(p.fraction, p.zone);
    ZonePartIsRead(p.zone);
  }

  lemma InstantsAgree(date: Date, p: Parts, second: nat, nanos: nat, offset: int)
    requires Grammar(p) && date == Date(Number(p.year), Number(p.month), Number(p.day)) && ValidDate(date)
    requires second == 3600 * Number(p.hour) + 60 * Number(p.minute) + Number(p.second)
    requires nanos == NanosNamed(p.fraction) && offset == 60 * ZoneNamed(p.zone)
    ensures InstantOf(date, second, nanos, offset) == InstantNamed(p)
  {
    DayNumberByTable(date);
  }

  lemma TimeOfParts(date: Date, p: Parts)
    requires Grammar(p) && date == Date(Number(p.year), Number(p.month), Number(p.day)) && ValidDate(date)
    ensures ReadTime(date, ClockPart(p)) == Some(InstantNamed(p))
  {
    var second: nat := 3600 * Number(p.hour) + 60 * Number(p.minute) + Number(p.second);
    var nanos, offset := NanosNamed(p.fraction), 60 * ZoneNamed(p.zone);
    TimePartIsRead(date, p, second, nanos, offset);
    InstantsAgree(date, p, second, nanos, offset);
  }

  lemma DateAndTimeAreRead(p: Parts, time: string)
    requires DateGrammar(p)
    ensures var date := Date(Number(p.year), Number(p.month), Number(p.day));
            && ValidDate(date)
            && Read(p.year + ("-" + (p.month + ("-" + (p.day + ("T" + time)))))) == ReadTime(date, time)
  {
    DatePartIsRead(p, "T" + time);
    MarkIsRead("T", time);
  }

  lemma GrammarIsRead(p: Parts)
    requires Grammar(p)
    ensures Read(TextOf(p)) == Some(InstantNamed(p))
  {
    DateAndTimeAreRead(p, ClockPart(p));
    TimeOfParts(Date(Number(p.year), Number(p.month), Number(p.day)), p);
  }

  // What is read follows the grammar

  lemma ReadDigits(s: string, width: nat, low: nat, high: nat)
    requires ReadNumber(s, width, low, high).Some?
    ensures |s| >= width && Digits(s[..width], width, low, high)
    ensures s == s[..width] + ReadNumber(s, width, low, high).value.1
  {
  }

  lemma ReadMark(s: string, mark: string)
    requires |mark| == 1 && Skip(s, mark[0]).Some?
    ensures s == mark + Skip(s, mark[0]).value
  {
  }

  lemma DateFollows(s: string) returns (year: string, month: string, day: string)
    requires ReadDate(s).Some?
    ensures s == year + ("-" + (month + ("-" + (day + ReadDate(s).value.1))))
    ensures forall hour, minute, second, fraction, zone ::
              DateGrammar(Parts(year, month, day, hour, minute, second, fraction, zone))
  {
    ReadDigits(s, 4, 0, 9999);
    year := s[..4];
    var s1 := ReadNumber(s, 4, 0, 9999).value.1;
    ReadMark(s1, "-");
    var s2 := Skip(s1, '-').value;
    ReadDigits(s2, 2, 1, 12);
    month := s2[..2];
    var s3 := ReadNumber(s2, 2, 1, 12).value.1;
    ReadMark(s3, "-");
    var s4 := Skip(s3, '-').value;
    ReadDigits(s4, 2, 1, MonthDays(Number(year), Number(month)));
    day := s4[..2];
    DatesOfTheYear(Date(Number(year), Number(month), Number(day)));
  }

  lemma HourFollows(s: string) returns (hour: string)
    requires ReadHour(s).Some?
    ensures Digits(hour, 1, 0, 9) || Digits(hour, 2, 0, 23)
    ensures s == hour + ReadHour(s).value.1
  {
    if |s| >= 2 && IsDigit(s[0]) && !IsDigit(s[1]) {
      ReadDigits(s, 1, 0, 9);
      hour := s[..1];
    } else {
      ReadDigits(s, 2, 0, 23);
      hour := s[..2];
    }
  }

  lemma ClockFollows(s: string) returns (hour: string, minute: string, second: string)
    requires ReadClock(s).Some?
    ensures Digits(hour, 1, 0, 9) || Digits(hour, 2, 0, 23)
    ensures Digits(minute, 2, 0, 59) && Digits(second, 2, 0, 59)
    ensures s == hour + (":" + (minute + (":" + (second + ReadClock(s).value.1))))
  {
    hour := HourFollows(s);
    var s1 := ReadHour(s).value.1;
    ReadMark(s1, ":");
    var s2 := Skip(s1, ':').value;
    ReadDigits(s2, 2, 0, 59);
    minute := s2[..2];
    var s3 := ReadNumber(s2, 2, 0, 59).value.1;
    ReadMark(s3, ":");
    var s4 := Skip(s3, ':').value;
    ReadDigits(s4, 2, 0, 59);
    second := s4[..2];
  }

  lemma {:induction false} DigitsLengthIsPositive(s: string)
    requires s != "" && IsDigit(s[0])
    ensures DigitsLength(s) >= 1
  {
  }

  lemma FractionFollows(s: string) returns (fraction: string)
    ensures FractionGrammar(fraction) && s == fraction + ReadFraction(s).1
  {
    fraction := "";
    if |s| >= 2 && s[0] in {'.', ','} && IsDigit(s[1]) {
      var n := DigitsLength(s[1..]);
      DigitsLengthIsPositive(s[1..]);
      fraction := s[..n + 1];
      assert fraction[1..] == s[1..][..n];
    }
  }

  lemma ZoneFollows(s: string)
    requires ReadOffset(s).Some?
    ensures ZoneGrammar(s)
  {
    if s != "Z" {
      ReadDigits(s[1..], 2, 0, 24);
      ReadDigits(s[4..], 2, 0, 60);
      assert s[1..][..2] == s[1..3] && s[4..][..2] == s[4..];
    }
  }

  lemma ReadFollowsGrammar(s: string) returns (p: Parts)
    requires Read(s).Some?
    ensures Grammar(p) && TextOf(p) == s
  {
    var year, month, day := DateFollows(s);
    var s1 := ReadDate(s).value.1;
    ReadMark(s1, "T");
    var s2 := Skip(s1, 'T').value;
    var hour, minute, second := ClockFollows(s2);
    var s3 := ReadClock(s2).value.1;
    var fraction := FractionFollows(s3);
    ZoneFollows(ReadFraction(s3).1);
    p := Parts(year, month, day, hour, minute, second, fraction, ReadFraction(s3).1);
  }

  /** Exactly the texts of the grammar are read, as the instants they name. */
  lemma ReadsExactly(s: string, instant: int)
    ensures Read(s) == Some(instant) <==> exists p :: Grammar(p) && TextOf(p) == s && InstantNamed(p) == instant
  {
    if Read(s).Some? {
      var p := ReadFollowsGrammar(s);
      GrammarIsRead(p);
    }
    forall p | Grammar(p) && TextOf(p) == s ensures Read(s) == Some(InstantNamed(p)) { GrammarIsRead(p); }
  }
}
