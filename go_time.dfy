/**
 * Go's time.Parse for the two layouts the back end uses, "2006-01-02" (dates
 * of expiry and of sharing) and "2006-01-02 15:04" (training sessions), the
 * matching time.Format, and the instants (seconds since the Unix epoch, UTC)
 * that the database compares.
 */
module GoTime {
  import opened Wrappers
  import opened GoText

  datatype Date = Date(year: int, month: int, day: int)

  datatype DateTime = DateTime(date: Date, hour: int, minute: int)

  predicate IsLeap(year: int) {
    year % 4 == 0 && (year % 100 != 0 || year % 400 == 0)
  }

  function DaysIn(month: int, year: int): int
    requires 1 <= month <= 12
  {
    if month == 2 then (if IsLeap(year) then 29 else 28)
    else if month == 4 || month == 6 || month == 9 || month == 11 then 30
    else 31
  }

  /** A calendar date the four-digit layout can write. */
  predicate ValidDate(d: Date) {
    && 0 <= d.year <= 9999
    && 1 <= d.month <= 12
    && 1 <= d.day <= DaysIn(d.month, d.year)
  }

  predicate ValidDateTime(t: DateTime) {
    ValidDate(t.date) && 0 <= t.hour < 24 && 0 <= t.minute < 60
  }

  // ---------------------------------------------------------------- fixed-width numbers

  /** Two digits, zero padded: the "01", "02" and "04" layout elements. */
  function Two(n: nat): (s: string)
    requires n < 100
    ensures |s| == 2 && AllDigits(s)
  {
    [DigitChar(n / 10), DigitChar(n % 10)]
  }

  /** Four digits, zero padded: the "2006" layout element. */
  function Four(n: nat): (s: string)
    requires n < 10000
    ensures |s| == 4 && AllDigits(s)
  {
    Two(n / 100) + Two(n % 100)
  }

  lemma DecimalTwo(s: string)
    requires |s| == 2 && AllDigits(s)
    ensures DecimalValue(s) == (s[0] as int - '0' as int) * 10 + (s[1] as int - '0' as int)
  {
    assert s[..2] == s;
    assert s[..1] == [s[0]];
    assert s[..1][..0] == [];
    calc {
      DecimalValue(s);
      DecimalValue(s[..1]) * 10 + (s[1] as int - '0' as int);
      { assert DecimalValue(s[..1]) == DecimalValue(s[..1][..0]) * 10 + (s[0] as int - '0' as int); }
      (s[0] as int - '0' as int) * 10 + (s[1] as int - '0' as int);
    }
  }

  lemma DecimalFour(s: string)
    requires |s| == 4 && AllDigits(s)
    ensures DecimalValue(s) == DecimalValue(s[..2]) * 100 + DecimalValue(s[2..])
  {
    assert s[..3][..2] == s[..2];
    assert s[..4] == s;
    DecimalTwo(s[..2]);
    DecimalTwo(s[2..]);
  }

  lemma TwoRoundTrip(n: nat)
    requires n < 100
    ensures DecimalValue(Two(n)) == n
  {
    DecimalTwo(Two(n));
  }

  lemma FourRoundTrip(n: nat)
    requires n < 10000
    ensures DecimalValue(Four(n)) == n
  {
    var s := Four(n);
    assert s[..2] == Two(n / 100) && s[2..] == Two(n % 100);
    DecimalFour(s);
    TwoRoundTrip(n / 100);
    TwoRoundTrip(n % 100);
  }

  lemma TwoOfDigits(s: string)
    requires |s| == 2 && AllDigits(s)
    ensures DecimalValue(s) < 100 && Two(DecimalValue(s)) == s
  {
    DecimalTwo(s);
  }

  lemma FourOfDigits(s: string)
    requires |s| == 4 && AllDigits(s)
    ensures DecimalValue(s) < 10000 && Four(DecimalValue(s)) == s
  {
    DecimalFour(s);
    TwoOfDigits(s[..2]);
    TwoOfDigits(s[2..]);
    var v := DecimalValue(s);
    assert v / 100 == DecimalValue(s[..2]) && v % 100 == DecimalValue(s[2..]);
    assert s == s[..2] + s[2..];
  }

  // ---------------------------------------------------------------- "2006-01-02"

  /** The shape of "2006-01-02": four digits, '-', two digits, '-', two digits. */
  predicate DateShape(s: string) {
    && |s| == 10 && s[4] == '-' && s[7] == '-'
    && AllDigits(s[..4]) && AllDigits(s[5..7]) && AllDigits(s[8..])
  }

  /**
   * time.Parse("2006-01-02", s): the exact shape, a month from 1 to 12 and a
   * day that exists in that month of that year; no trailing text.
   */
  function ParseDate(s: string): (r: Option<Date>)
    ensures r.Some? ==> ValidDate(r.value)
    ensures r.Some? ==> DateShape(s)
  {
    if DateShape(s) then
      var d := Date(DecimalValue(s[..4]), DecimalValue(s[5..7]), DecimalValue(s[8..]));
      if 1 <= d.month <= 12 && 1 <= d.day <= DaysIn(d.month, d.year) then
        FourOfDigits(s[..4]);
        Some(d)
      else None
    else None
  }

  /** time.Format("2006-01-02"). */
  function FormatDate(d: Date): string
    requires ValidDate(d)
  {
    Four(d.year) + "-" + Two(d.month) + "-" + Two(d.day)
  }

  /** Every date the layout can write is read back unchanged. */
  lemma ParseFormatDate(d: Date)
    requires ValidDate(d)
    ensures ParseDate(FormatDate(d)) == Some(d)
  {
    var s := FormatDate(d);
    assert s[..4] == Four(d.year) && s[5..7] == Two(d.month) && s[8..] == Two(d.day);
    FourRoundTrip(d.year);
    TwoRoundTrip(d.month);
    TwoRoundTrip(d.day);
  }

  /** Every text the layout accepts is the one it writes: there is one spelling per date. */
  lemma FormatParseDate(s: string)
    requires ParseDate(s).Some?
    ensures FormatDate(ParseDate(s).value) == s
  {
    FourOfDigits(s[..4]);
    TwoOfDigits(s[5..7]);
    TwoOfDigits(s[8..]);
    assert s == s[..4] + "-" + s[5..7] + "-" + s[8..];
  }

  // ---------------------------------------------------------------- "2006-01-02 15:04"

  function DropSpaces(s: string): (r: string)
    ensures |r| <= |s| && r == s[|s| - |r|..] && (r == [] || r[0] != ' ')
  {
    if s != [] && s[0] == ' ' then DropSpaces(s[1..]) else s
  }

  /**
   * The " 15:04" tail of the layout. The space of the layout matches one or
   * more spaces; "15" takes one or two digits (0 to 23); "04" takes exactly
   * two digits (0 to 59); nothing may follow.
   */
  function ParseClock(s: string): Option<(int, int)> {
    if s == [] || s[0] != ' ' then None else ClockFields(DropSpaces(s))
  }

  /** The "15:04" part, once the spaces are dropped. */
  function ClockFields(t: string): Option<(int, int)> {
    if t == [] || !IsDigit(t[0]) then None
    else
      var width := if |t| >= 2 && IsDigit(t[1]) then 2 else 1;
      var hour := DecimalValue(t[..width]);
      match MinuteField(t[width..])
      case None => None
      case Some(minute) => if hour < 24 then Some((hour, minute)) else None
  }

  /** The ":04" part: a colon and exactly two digits below 60, with nothing after them. */
  function MinuteField(rest: string): Option<int> {
    if |rest| == 3 && rest[0] == ':' && AllDigits(rest[1..]) && DecimalValue(rest[1..]) < 60 then
      Some(DecimalValue(rest[1..]))
    else None
  }

  /** time.Parse("2006-01-02 15:04", s). */
  function ParseDateTime(s: string): (r: Option<DateTime>)
    ensures r.Some? ==> ValidDateTime(r.value)
    ensures r.Some? ==> |s| >= 10 && ParseDate(s[..10]) == Some(r.value.date)
  {
    if |s| < 10 then None
    else
      match ParseDate(s[..10])
      case None => None
      case Some(d) =>
        match ParseClock(s[10..])
        case None => None
        case Some(c) => Some(DateTime(d, c.0, c.1))
  }

  /** time.Format("2006-01-02 15:04"). */
  function FormatDateTime(t: DateTime): string
    requires ValidDateTime(t)
  {
    FormatDate(t.date) + (" " + (Two(t.hour) + (":" + Two(t.minute))))
  }

  /** A date followed by a clock is read as that date at that time. */
  lemma ParseDateAndClock(date: string, clock: string, d: Date, c: (int, int))
    requires |date| == 10 && ParseDate(date) == Some(d) && ParseClock(clock) == Some(c)
    ensures ParseDateTime(date + clock) == Some(DateTime(d, c.0, c.1))
  {
    assert (date + clock)[..10] == date && (date + clock)[10..] == clock;
  }

  /** A space, one or two hour digits, ':' and two minute digits make a clock. */
  lemma ParseClockOf(hh: string, mm: string)
    requires 1 <= |hh| <= 2 && AllDigits(hh) && |mm| == 2 && AllDigits(mm)
    requires DecimalValue(hh) < 24 && DecimalValue(mm) < 60
    ensures ParseClock(" " + (hh + (":" + mm))) == Some((DecimalValue(hh), DecimalValue(mm)))
  {
    var x := hh + (":" + mm);
    assert x[0] == hh[0];
    DropOneSpace(x);
    ClockFieldsOf(hh, mm);
  }

  lemma DropOneSpace(x: string)
    requires x != [] && x[0] != ' '
    ensures DropSpaces(" " + x) == x
  {
    assert (" " + x)[1..] == x;
  }

  lemma ClockFieldsOf(hh: string, mm: string)
    requires 1 <= |hh| <= 2 && AllDigits(hh) && |mm| == 2 && AllDigits(mm)
    requires DecimalValue(hh) < 24 && DecimalValue(mm) < 60
    ensures ClockFields(hh + (":" + mm)) == Some((DecimalValue(hh), DecimalValue(mm)))
  {
    var x := hh + (":" + mm);
    assert (if |x| >= 2 && IsDigit(x[1]) then 2 else 1) == |hh| by {
      if |hh| == 1 { assert x[1] == ':'; } else { assert x[1] == hh[1]; }
    }
    assert x[..|hh|] == hh && x[|hh|..] == ":" + mm;
    assert MinuteField(":" + mm) == Some(DecimalValue(mm)) by {
      assert (":" + mm)[1..] == mm;
    }
  }

  /** Every date and time the layout can write is read back unchanged. */
  lemma ParseFormatDateTime(t: DateTime)
    requires ValidDateTime(t)
    ensures ParseDateTime(FormatDateTime(t)) == Some(t)
  {
    ParseFormatDate(t.date);
    TwoRoundTrip(t.hour);
    TwoRoundTrip(t.minute);
    ParseClockOf(Two(t.hour), Two(t.minute));
    ParseDateAndClock(FormatDate(t.date), " " + (Two(t.hour) + (":" + Two(t.minute))), t.date, (t.hour, t.minute));
  }

  /** The hour may be written with one digit: "2024-03-09 7:30" is read as 07:30. */
  lemma OneDigitHour(d: Date, h: nat, m: nat)
    requires ValidDate(d) && h < 10 && m < 60
    ensures ParseDateTime(FormatDate(d) + (" " + ([DigitChar(h)] + (":" + Two(m))))) == Some(DateTime(d, h, m))
  {
    var hh := [DigitChar(h)];
    assert AllDigits(hh) && DecimalValue(hh) == h by {
      assert hh[..0] == [];
    }
    ParseFormatDate(d);
    TwoRoundTrip(m);
    ParseClockOf(hh, Two(m));
    ParseDateAndClock(FormatDate(d), " " + (hh + (":" + Two(m))), d, (h, m));
  }

  // ---------------------------------------------------------------- instants

  /** Days from 1970-01-01 to d in the proleptic Gregorian calendar. */
  function DaysFromCivil(d: Date): int {
    var y := if d.month <= 2 then d.year - 1 else d.year;
    var era := y / 400;  // floor division: Dafny's division by a positive divisor
    var yoe := y - era * 400;
    var mp := if d.month > 2 then d.month - 3 else d.month + 9;
    var doy := (153 * mp + 2) / 5 + d.day - 1;
    var doe := yoe * 365 + yoe / 4 - yoe / 100 + doy;
    era * 146097 + doe - 719468
  }

  const SecondsPerDay: int := 86400

  /** Midnight UTC at the start of d, as a database DATE compares with a timestamp. */
  function DateInstant(d: Date): int {
    DaysFromCivil(d) * SecondsPerDay
  }

  function DateTimeInstant(t: DateTime): int {
    DateInstant(t.date) + t.hour * 3600 + t.minute * 60
  }

  /** A date and time lies within the day of its date. */
  lemma DateTimeWithinDay(t: DateTime)
    requires ValidDateTime(t)
    ensures DateInstant(t.date) <= DateTimeInstant(t) < DateInstant(t.date) + SecondsPerDay
  {
  }
}
