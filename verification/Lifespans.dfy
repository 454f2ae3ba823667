/**
 The end of an agent's lifespan: a second in UTC, or never. Its stored form is a timestamp, with one reserved
 timestamp for a lifespan that never ends.
 */
module Lifespans {
  import opened Wrappers
  import opened Calendar
  import opened Timestamps

  const UNBOUNDED_TEXT := "9999-12-31" + "T" + "23:59:59" + "Z"

  /** The instant the reserved timestamp names, the last second of year 9999. */
  const UNBOUNDED_AT := 315_569_519_999_000_000_000

  /** Go's zero time, 0001-01-01T00:00:00Z. */
  const ZERO_TIME := 366 * DAY_SECONDS * SECOND

  /** `at` is meaningful only when bounded; an unbounded end carries the zero time. */
  datatype LifespanEnd = LifespanEnd(at: int, bounded: bool) {
    /** The two ways the service builds an end: cut to the second, or the zero value. */
    predicate Constructible() {
      if bounded then at % SECOND == 0 else at == ZERO_TIME
    }

    function Text(): string {
      if bounded then Write(at) else UNBOUNDED_TEXT
    }

    predicate Equal(other: LifespanEnd) {
      bounded == other.bounded && at == other.at
    }

    predicate EndsAfter(other: LifespanEnd) {
      if !other.bounded then false else !bounded || at > other.at
    }

    predicate Expired(now: int) {
      bounded && now >= at
    }
  }

  const UNBOUNDED := LifespanEnd(ZERO_TIME, false)

  function Bounded(instant: int): (end: LifespanEnd)
    ensures end.Constructible()
  {
    LifespanEnd(instant / SECOND * SECOND, true)
  }

  /** The reserved timestamp and every instant past it never end, and a negative year is refused. */
  function EndOf(instant: int): (end: Option<LifespanEnd>)
    ensures end.Some? ==> end.value.Constructible()
  {
    var end := Bounded(instant);
    if DateOf(end.at / SECOND / DAY_SECONDS).year < 0 then None
    else if end.at >= UNBOUNDED_AT then Some(UNBOUNDED)
    else Some(end)
  }

  /** A requested end. */
  function ParseEnd(text: string): (end: Option<LifespanEnd>)
    ensures end.Some? ==> end.value.Constructible()
  {
    match Read(text)
    case None => None
    case Some(instant) => EndOf(instant)
  }

  // The order

  lemma UnboundedIsGreatest(e: LifespanEnd)
    requires e.Constructible()
    ensures !e.EndsAfter(UNBOUNDED)
    ensures e.Equal(UNBOUNDED) || UNBOUNDED.EndsAfter(e)
  {
  }

  /** On the ends the service builds, exactly one of three holds: later, earlier or equal. */
  lemma OrderIsTotal(a: LifespanEnd, b: LifespanEnd)
    requires a.Constructible() && b.Constructible()
    ensures a.EndsAfter(b) || b.EndsAfter(a) || a.Equal(b)
    ensures !(a.EndsAfter(b) && b.EndsAfter(a))
    ensures !(a.Equal(b) && (a.EndsAfter(b) || b.EndsAfter(a)))
  {
  }

  lemma OrderIsTransitive(a: LifespanEnd, b: LifespanEnd, c: LifespanEnd)
    requires a.EndsAfter(b) && b.EndsAfter(c)
    ensures a.EndsAfter(c)
  {
  }

  /** An agent can only come back to life through an extension. */
  lemma RevivalIsAnExtension(previous: LifespanEnd, next: LifespanEnd, now: int)
    requires previous.Expired(now) && !next.Expired(now)
    ensures next.EndsAfter(previous)
  {
  }

  // The text

  lemma LastDay()
    ensures DateOf(3_652_424) == Date(9999, 12, 31)
  {
    var d := Date(9999, 12, 31);
    MonthsFillTheYear(9999);
    assert DaysBeforeMonth(9999, 13) == DaysBeforeMonth(9999, 12) + 31;
    assert DayNumber(d) == 3_652_424;
    DateOfDayNumber(d);
  }

  lemma TwoDigits(n: nat)
    requires n < 100
    ensures Pad(n, 2) == [DigitChar(n / 10), DigitChar(n % 10)]
  {
    assert Pad(n, 2) == Pad(n / 10, 1) + [DigitChar(n % 10)];
    assert Pad(n / 10, 1) == [DigitChar(n / 10)];
  }

  lemma LastYearText()
    ensures Pad(9999, 4) == "9999"
  {
    TwoDigits(99);
    assert Pad(999, 3) == Pad(99, 2) + [DigitChar(9)];
    assert Pad(9999, 4) == Pad(999, 3) + [DigitChar(9)];
  }

  lemma LastDateText()
    ensures DateText(Date(9999, 12, 31)) == "9999-12-31"
  {
    LastYearText();
    TwoDigits(12);
    TwoDigits(31);
  }

  lemma LastClockText()
    ensures ClockText(86399) == "23:59:59"
  {
    TwoDigits(23);
    TwoDigits(59);
    assert 86399 / 3600 == 23 && 86399 / 60 % 60 == 59 && 86399 % 60 == 59;
  }

  lemma LastSecond(at: int)
    requires at == UNBOUNDED_AT
    ensures at / SECOND / DAY_SECONDS == 3_652_424
    ensures SecondOfDay(at) == 86399
    ensures at / SECOND * SECOND == at
  {
  }

  /** The reserved timestamp is the written form of the last second of year 9999. */
  lemma ReservedTimestamp(at: int)
    requires at == UNBOUNDED_AT
    ensures Write(at) == UNBOUNDED_TEXT
  {
    LastSecond(at);
    LastDay();
    LastDateText();
    LastClockText();
  }

  /** The ends whose stored form reads back: unbounded, or from year 0 to before the reserved timestamp. */
  predicate Storable(e: LifespanEnd) {
    e.Constructible() && (e.bounded ==> 0 <= e.at < UNBOUNDED_AT)
  }

  lemma YearIsNegativeExactly(at: int)
    ensures DateOf(at / SECOND / DAY_SECONDS).year < 0 <==> at < 0
  {
    if at < 0 {
      assert at / SECOND < 0;
      assert at / SECOND / DAY_SECONDS < 0;
    }
  }

  lemma CutToTheSecond(instant: int)
    ensures instant / SECOND * SECOND < 0 <==> instant < 0
    ensures instant / SECOND * SECOND >= UNBOUNDED_AT <==> instant >= UNBOUNDED_AT
  {
  }

  /** Which instants are refused, which never end, and which are kept to the second. */
  lemma EndOfInstant(instant: int)
    ensures EndOf(instant) == if instant < 0 then None
                              else if instant >= UNBOUNDED_AT then Some(UNBOUNDED)
                              else Some(LifespanEnd(instant / SECOND * SECOND, true))
  {
    YearIsNegativeExactly(instant / SECOND * SECOND);
    CutToTheSecond(instant);
  }

  lemma ParsedIsStorable(text: string)
    ensures ParseEnd(text).Some? ==> Storable(ParseEnd(text).value)
  {
    if Read(text).Some? { EndOfInstant(Read(text).value); }
  }

  /** Parsing what was written is judging the second it was written for. */
  lemma WrittenIsParsed(at: int)
    requires at % SECOND == 0 && 0 <= at < YEAR_10000
    ensures ParseEnd(Write(at)) == EndOf(at)
  {
    WrittenIsRead(at);
    assert at / SECOND * SECOND == at;
  }

  lemma UnreadableIsNotParsed(at: int)
    requires at < 0 || at >= YEAR_10000
    ensures ParseEnd(Write(at)) == None
  {
    OtherYearsAreNotRead(at);
  }

  lemma ReservedIsUnbounded(text: string)
    requires text == UNBOUNDED_TEXT
    ensures ParseEnd(text) == Some(UNBOUNDED)
  {
    var at := UNBOUNDED_AT;
    ReservedTimestamp(at);
    WrittenIsParsed(at);
    EndOfInstant(at);
  }

  lemma KeptExactly(at: int)
    requires at % SECOND == 0 && 0 <= at
    ensures EndOf(at) == Some(LifespanEnd(at, true)) <==> at < UNBOUNDED_AT
  {
    EndOfInstant(at);
  }

  lemma LateIsUnbounded()
    ensures UNBOUNDED_AT < YEAR_10000
  {
  }

  lemma BoundedRoundTrips(at: int)
    requires at % SECOND == 0
    ensures ParseEnd(Write(at)) == Some(LifespanEnd(at, true)) <==> 0 <= at < UNBOUNDED_AT
  {
    LateIsUnbounded();
    if 0 <= at < YEAR_10000 {
      WrittenIsParsed(at);
      KeptExactly(at);
    } else {
      UnreadableIsNotParsed(at);
    }
  }

  /** Exactly the storable ends survive being written and parsed. */
  lemma TextRoundTripsExactly(e: LifespanEnd)
    requires e.Constructible()
    ensures ParseEnd(e.Text()) == Some(e) <==> Storable(e)
  {
    if e.bounded {
      BoundedRoundTrips(e.at);
    } else {
      ReservedIsUnbounded(e.Text());
    }
  }

  /** Whatever is accepted is stored in a form that reads back as the same end. */
  lemma AcceptedRoundTrips(text: string)
    ensures ParseEnd(text).Some? ==> ParseEnd(ParseEnd(text).value.Text()) == ParseEnd(text)
  {
    ParsedIsStorable(text);
    if ParseEnd(text).Some? { TextRoundTripsExactly(ParseEnd(text).value); }
  }

  /** Any instant from the reserved timestamp on never ends, and no other. */
  lemma UnboundedExactly(text: string)
    ensures ParseEnd(text) == Some(UNBOUNDED) <==> Read(text).Some? && Read(text).value >= UNBOUNDED_AT
  {
    if Read(text).Some? { EndOfInstant(Read(text).value); }
  }

  lemma EqualTextsAreEqualEnds(d: LifespanEnd, e: LifespanEnd)
    requires Storable(d) && Storable(e)
    ensures d.Text() == e.Text() <==> d == e
  {
    TextRoundTripsExactly(d);
    TextRoundTripsExactly(e);
  }

  lemma EqualEndsAreEqualSeconds(m: int, n: int)
    requires EndOf(m).Some? && EndOf(n).Some?
    ensures EndOf(m) == EndOf(n) <==> m / SECOND == n / SECOND || (m >= UNBOUNDED_AT && n >= UNBOUNDED_AT)
  {
    EndOfInstant(m);
    EndOfInstant(n);
  }

  /**
   What is stored depends on the second named, however its offset or fraction was written, and tells all seconds before
   the reserved timestamp apart.
   */
  lemma StoredFormIsTheSecond(a: string, b: string)
    ensures ParseEnd(a).Some? && ParseEnd(b).Some? ==>
            (ParseEnd(a).value.Text() == ParseEnd(b).value.Text() <==>
             Read(a).value / SECOND == Read(b).value / SECOND ||
             (Read(a).value >= UNBOUNDED_AT && Read(b).value >= UNBOUNDED_AT))
  {
    if ParseEnd(a).Some? && ParseEnd(b).Some? {
      ParsedIsStorable(a);
      ParsedIsStorable(b);
      EqualTextsAreEqualEnds(ParseEnd(a).value, ParseEnd(b).value);
      EqualEndsAreEqualSeconds(Read(a).value, Read(b).value);
    }
  }
}
