/** Calendar arithmetic behind the views. A calendar date is a day number
    (0 is 1970-01-01, a Thursday); a moment is a number of milliseconds on the
    same scale, read as local time. Appointment dates are ISO 8601 extended
    calendar dates `YYYY-MM-DD` (ISO 8601:2004 section 4.1.2.2) and times are
    reduced-accuracy local times `hh:mm` (section 4.2.2.3). A text that is not
    of that form is an Invalid Date: it has no day number, and every
    comparison with it is false, as with JavaScript's NaN. */
module Dates {
  import opened Seqs

  const MsPerMinute: int := 60000
  const MinutesPerDay: int := 1440
  const MsPerDay: int := 86400000

  predicate IsDigit(c: char)
  {
    '0' <= c <= '9'
  }

  predicate AllDigits(s: string)
  {
    forall i :: 0 <= i < |s| ==> IsDigit(s[i])
  }

  function DigitValue(c: char): nat
    requires IsDigit(c)
  {
    c as int - '0' as int
  }

  function DigitChar(d: nat): char
    requires d < 10
  {
    ('0' as int + d) as char
  }

  /** The number a string of decimal digits denotes. */
  function DecimalValue(s: string): nat
    requires AllDigits(s)
    decreases |s|
  {
    if s == [] then 0 else DecimalValue(Init(s)) * 10 + DigitValue(Last(s))
  }

  /** `n.toString().padStart(2, '0')` for n < 100. */
  function Pad2(n: nat): string
    requires n < 100
  {
    [DigitChar(n / 10), DigitChar(n % 10)]
  }

  /** Four-digit zero-padded year. */
  function Pad4(n: nat): string
    requires n < 10000
  {
    Pad2(n / 100) + Pad2(n % 100)
  }

  predicate IsLeapYear(y: int)
  {
    y % 4 == 0 && (y % 100 != 0 || y % 400 == 0)
  }

  function DaysInMonth(y: int, m: int): int
    requires 1 <= m <= 12
  {
    if m == 2 then (if IsLeapYear(y) then 29 else 28)
    else if m == 4 || m == 6 || m == 9 || m == 11 then 30
    else 31
  }

  predicate IsValidCivil(y: int, m: int, d: int)
  {
    0 <= y <= 9999 && 1 <= m <= 12 && 1 <= d <= DaysInMonth(y, m)
  }

  /** Day number of a proleptic Gregorian date (years counted from March so
      that the leap day ends the year). */
  function DaysFromCivil(y: int, m: int, d: int): int
    requires 1 <= m <= 12
  {
    var y1 := if m <= 2 then y - 1 else y;
    var era := y1 / 400;
    var yoe := y1 - era * 400;
    var mp := (m + 9) % 12;
    var doy := (153 * mp + 2) / 5 + d - 1;
    var doe := yoe * 365 + yoe / 4 - yoe / 100 + doy;
    era * 146097 + doe - 719468
  }

  /** `YYYY-MM-DD` */
  function FormatIsoDate(y: nat, m: nat, d: nat): string
    requires y < 10000 && m < 100 && d < 100
  {
    Pad4(y) + "-" + Pad2(m) + "-" + Pad2(d)
  }

  /** The day number of an ISO calendar date, or None for an Invalid Date. */
  function ParseIsoDate(s: string): Option<int>
  {
    if |s| == 10 && AllDigits(s[..4]) && s[4] == '-' && AllDigits(s[5..7]) && s[7] == '-' && AllDigits(s[8..]) then
      var y, m, d := DecimalValue(s[..4]), DecimalValue(s[5..7]), DecimalValue(s[8..]);
      if IsValidCivil(y, m, d) then Some(DaysFromCivil(y, m, d)) else None
    else None
  }

  /** `hh:mm` */
  function FormatTime(minutes: nat): string
    requires minutes < MinutesPerDay
  {
    Pad2(minutes / 60) + ":" + Pad2(minutes % 60)
  }

  /** Minutes since midnight of an `hh:mm` time, or None when the text is not one. */
  function ParseTime(s: string): (r: Option<nat>)
    ensures r.Some? ==> r.value < MinutesPerDay
  {
    if |s| == 5 && AllDigits(s[..2]) && s[2] == ':' && AllDigits(s[3..]) then
      var h, m := DecimalValue(s[..2]), DecimalValue(s[3..]);
      if h < 24 && m < 60 then Some(h * 60 + m) else None
    else None
  }

  /** `new Date(`${date}T${time}`)`: the local moment a date and a time denote, or None. */
  function Moment(date: string, time: string): Option<int>
  {
    match (ParseIsoDate(date), ParseTime(time))
    case (Some(day), Some(minutes)) => Some((day * MinutesPerDay + minutes) * MsPerMinute)
    case _ => None
  }

  /** A date and a time that both parse denote the moment of that day and minute. */
  lemma MomentOfParsed(date: string, time: string)
    requires ParseIsoDate(date).Some? && ParseTime(time).Some?
    ensures Moment(date, time) == Some((ParseIsoDate(date).value * MinutesPerDay + ParseTime(time).value) * MsPerMinute)
  {
  }

  /** The calendar day a moment falls on (floor division, also before 1970). */
  function DayOf(moment: int): int
  {
    moment / MsPerDay
  }

  /** `getDay()`: 0 for Sunday, 1 for Monday, ..., 6 for Saturday. */
  function Weekday(day: int): nat
  {
    (day + 4) % 7
  }

  // ---------------------------------------------------------------------------

  lemma DecimalValueOfTwo(a: char, b: char)
    requires IsDigit(a) && IsDigit(b)
    ensures AllDigits([a, b]) && DecimalValue([a, b]) == DigitValue(a) * 10 + DigitValue(b)
  {
    assert Init([a, b]) == [a];
    assert Init([a]) == [];
    assert DecimalValue([a]) == DigitValue(a);
  }

  lemma DecimalValueOfPairs(hi: string, lo: string)
    requires |lo| == 2 && AllDigits(hi) && AllDigits(lo)
    ensures AllDigits(hi + lo) && DecimalValue(hi + lo) == DecimalValue(hi) * 100 + DecimalValue(lo)
  {
    var s := hi + lo;
    assert Init(s) == hi + [lo[0]];
    assert Init(hi + [lo[0]]) == hi;
    assert DecimalValue(hi + [lo[0]]) == DecimalValue(hi) * 10 + DigitValue(lo[0]);
    assert DecimalValue(s) == DecimalValue(hi + [lo[0]]) * 10 + DigitValue(lo[1]);
    DecimalValueOfTwo(lo[0], lo[1]);
    assert lo == [lo[0], lo[1]];
  }

  /** Zero padding is read back as the number padded. */
  lemma Pad2RoundTrip(n: nat)
    requires n < 100
    ensures |Pad2(n)| == 2 && AllDigits(Pad2(n)) && DecimalValue(Pad2(n)) == n
  {
    DecimalValueOfTwo(DigitChar(n / 10), DigitChar(n % 10));
  }

  lemma Pad4RoundTrip(n: nat)
    requires n < 10000
    ensures |Pad4(n)| == 4 && AllDigits(Pad4(n)) && DecimalValue(Pad4(n)) == n
  {
    Pad2RoundTrip(n / 100);
    Pad2RoundTrip(n % 100);
    DecimalValueOfPairs(Pad2(n / 100), Pad2(n % 100));
  }

  /** Every valid calendar date written as `YYYY-MM-DD` parses back to its day number. */
  lemma ParseFormatIsoDate(y: nat, m: nat, d: nat)
    requires IsValidCivil(y, m, d)
    ensures |FormatIsoDate(y, m, d)| == 10
    ensures ParseIsoDate(FormatIsoDate(y, m, d)) == Some(DaysFromCivil(y, m, d))
  {
    var s := FormatIsoDate(y, m, d);
    Pad4RoundTrip(y);
    Pad2RoundTrip(m);
    Pad2RoundTrip(d);
    assert s[..4] == Pad4(y);
    assert s[5..7] == Pad2(m);
    assert s[8..] == Pad2(d);
  }

  /** Every time of day written as `hh:mm` parses back to its minute. */
  lemma ParseFormatTime(minutes: nat)
    requires minutes < MinutesPerDay
    ensures |FormatTime(minutes)| == 5
    ensures ParseTime(FormatTime(minutes)) == Some(minutes)
  {
    var s := FormatTime(minutes);
    Pad2RoundTrip(minutes / 60);
    Pad2RoundTrip(minutes % 60);
    assert s[..2] == Pad2(minutes / 60);
    assert s[3..] == Pad2(minutes % 60);
  }

  /** A valid date-time falls on the calendar day of its date part. */
  lemma DayOfMoment(date: string, time: string)
    requires Moment(date, time).Some?
    ensures DayOf(Moment(date, time).value) == ParseIsoDate(date).value
  {
    var day, minutes := ParseIsoDate(date).value, ParseTime(time).value;
    var m := (day * MinutesPerDay + minutes) * MsPerMinute;
    assert m == day * MsPerDay + minutes * MsPerMinute;
    assert 0 <= minutes * MsPerMinute < MsPerDay;
  }

  /** A later day is a later moment, whatever the times; within one day, a
      later time is a later moment. */
  lemma MomentMonotonic(d1: string, t1: string, d2: string, t2: string)
    requires Moment(d1, t1).Some? && Moment(d2, t2).Some?
    ensures ParseIsoDate(d1).value < ParseIsoDate(d2).value ==> Moment(d1, t1).value < Moment(d2, t2).value
    ensures ParseIsoDate(d1) == ParseIsoDate(d2) ==>
      (Moment(d1, t1).value < Moment(d2, t2).value <==> ParseTime(t1).value < ParseTime(t2).value)
  {
    var day1, day2 := ParseIsoDate(d1).value, ParseIsoDate(d2).value;
    var m1, m2 := ParseTime(t1).value, ParseTime(t2).value;
    if day1 < day2 {
      assert day1 * MinutesPerDay + m1 < day2 * MinutesPerDay + m2 by {
        assert day1 * MinutesPerDay + MinutesPerDay <= day2 * MinutesPerDay;
      }
    }
  }

  /** Consecutive day numbers have consecutive weekdays. */
  lemma WeekdayNext(day: int)
    ensures Weekday(day + 1) == (Weekday(day) + 1) % 7
  {
  }
}
