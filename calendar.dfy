/** Local wall-clock readings, the Gregorian calendar within Python's
    `datetime` range (years 1 to 9999), the 04:00 service-day rule, and the
    `strftime` renderings the scraper uses. */
module Calendar {
  import opened Wrappers

  /** A calendar date. */
  datatype Date = Date(year: int, month: int, day: int)

  /** A local wall-clock reading in the station time zone, to the second. */
  datatype LocalTime = LocalTime(date: Date, hour: int, minute: int, second: int)

  const MinYear := 1
  const MaxYear := 9999
  /** The hour at which a service day ends. */
  const ServiceDayStartHour := 4

  predicate IsLeapYear(y: int)
  {
    y % 4 == 0 && (y % 100 != 0 || y % 400 == 0)
  }

  function DaysInMonth(y: int, m: int): (n: int)
    requires 1 <= m <= 12
    ensures 28 <= n <= 31
    ensures m == 2 ==> (n == 29 <==> IsLeapYear(y))
  {
    if m == 2 then (if IsLeapYear(y) then 29 else 28)
    else if m == 4 || m == 6 || m == 9 || m == 11 then 30
    else 31
  }

  predicate ValidDate(d: Date)
  {
    && MinYear <= d.year <= MaxYear
    && 1 <= d.month <= 12
    && 1 <= d.day <= DaysInMonth(d.year, d.month)
  }

  predicate ValidTime(t: LocalTime)
  {
    ValidDate(t.date) && 0 <= t.hour < 24 && 0 <= t.minute < 60 && 0 <= t.second < 60
  }

  /** The earliest and the latest date `datetime` can represent. */
  const FirstDate := Date(MinYear, 1, 1)
  const LastDate := Date(MaxYear, 12, 31)

  /** Lexicographic order on (year, month, day). */
  predicate Before(a: Date, b: Date)
  {
    a.year < b.year || (a.year == b.year && (a.month < b.month || (a.month == b.month && a.day < b.day)))
  }

  /** The calendar day after `d`: the reference successor. */
  function NextDay(d: Date): (r: Date)
    requires ValidDate(d) && d != LastDate
    ensures ValidDate(r) && Before(d, r)
  {
    if d.day < DaysInMonth(d.year, d.month) then Date(d.year, d.month, d.day + 1)
    else if d.month < 12 then Date(d.year, d.month + 1, 1)
    else Date(d.year + 1, 1, 1)
  }

  /** The calendar day before `d`, as `d - timedelta(days=1)` computes it. */
  function PrevDay(d: Date): (r: Date)
    requires ValidDate(d) && d != FirstDate
    ensures ValidDate(r) && Before(r, d)
    ensures r != LastDate && NextDay(r) == d
  {
    if d.day > 1 then Date(d.year, d.month, d.day - 1)
    else if d.month > 1 then Date(d.year, d.month - 1, DaysInMonth(d.year, d.month - 1))
    else Date(d.year - 1, 12, 31)
  }

  /** Stepping forward then back returns to the start, so PrevDay and NextDay
      are inverse bijections between the valid dates they accept. */
  lemma PrevOfNext(d: Date)
    requires ValidDate(d) && d != LastDate
    ensures NextDay(d) != FirstDate && PrevDay(NextDay(d)) == d
  {
  }

  /** No valid date lies strictly between PrevDay(d) and d. */
  lemma PrevDayIsImmediate(d: Date, e: Date)
    requires ValidDate(d) && d != FirstDate && ValidDate(e)
    ensures !(Before(PrevDay(d), e) && Before(e, d))
  {
  }

  /** The boundary cases of the day step: a month end, New Year's Day and the
      1st of March in leap and common years. */
  lemma PrevDayBoundaries(y: int)
    requires MinYear < y <= MaxYear
    ensures PrevDay(Date(y, 1, 1)) == Date(y - 1, 12, 31)
    ensures PrevDay(Date(y, 3, 1)) == Date(y, 2, if IsLeapYear(y) then 29 else 28)
    ensures PrevDay(Date(y, 5, 1)) == Date(y, 4, 30)
    ensures PrevDay(Date(y, 8, 1)) == Date(y, 7, 31)
  {
  }

  /** The service-day bucket of a clock reading (`get_current_file_date`): a
      reading before 04:00 belongs to the previous calendar day. `None` stands
      for the OverflowError `datetime` raises when stepping back from its
      first day. */
  function ServiceDay(now: LocalTime): (r: Option<Date>)
    requires ValidTime(now)
    ensures now.hour >= ServiceDayStartHour ==> r == Some(now.date)
    ensures now.hour < ServiceDayStartHour ==>
      (r.None? <==> now.date == FirstDate) &&
      (r.Some? ==> ValidDate(r.value) && r.value != LastDate && NextDay(r.value) == now.date)
    ensures r.Some? ==> ValidDate(r.value)
  {
    if now.hour < ServiceDayStartHour then
      if now.date == FirstDate then None else Some(PrevDay(now.date))
    else Some(now.date)
  }

  /** 03:59 and 04:00 on the same morning fall into consecutive buckets. */
  lemma FourAmBoundary(d: Date, m: int, s: int)
    requires ValidDate(d) && d != FirstDate && 0 <= m < 60 && 0 <= s < 60
    ensures ServiceDay(LocalTime(d, 3, 59, s)) == Some(PrevDay(d))
    ensures ServiceDay(LocalTime(d, 4, 0, s)) == Some(d)
    ensures ServiceDay(LocalTime(d, 3, m, s)).Some?
    ensures NextDay(ServiceDay(LocalTime(d, 3, m, s)).value) == ServiceDay(LocalTime(d, 4, m, s)).value
  {
  }

  // ---------------------------------------------------------------------
  // Decimal rendering (`strftime`'s zero-padded fields) and its inverse.

  function Pow10(n: nat): (r: nat)
    ensures r >= 1
  {
    if n == 0 then 1 else 10 * Pow10(n - 1)
  }

  predicate IsDigit(c: char) { '0' <= c <= '9' }

  function DigitChar(n: int): (c: char)
    requires 0 <= n < 10
    ensures IsDigit(c)
  {
    ('0' as int + n) as char
  }

  function DigitValue(c: char): int
    requires IsDigit(c)
  {
    c as int - '0' as int
  }

  /** The last `width` decimal digits of `n`, with leading zeros. */
  function Pad(n: nat, width: nat): (s: string)
    ensures |s| == width
    ensures forall i :: 0 <= i < |s| ==> IsDigit(s[i])
  {
    if width == 0 then "" else Pad(n / 10, width - 1) + [DigitChar(n % 10)]
  }

  /** The value of a string of decimal digits. */
  function ParseDigits(s: string): nat
    requires forall i :: 0 <= i < |s| ==> IsDigit(s[i])
  {
    if s == [] then 0 else 10 * ParseDigits(s[..|s| - 1]) + DigitValue(s[|s| - 1])
  }

  /** Reading back a zero-padded rendering gives the number, as long as the
      number fits in the width. */
  lemma {:induction false} ParsePad(n: nat, width: nat)
    requires n < Pow10(width)
    ensures ParseDigits(Pad(n, width)) == n
  {
    if width > 0 {
      var s := Pad(n, width);
      assert s[..|s| - 1] == Pad(n / 10, width - 1);
      ParsePad(n / 10, width - 1);
    }
  }

  /** `strftime('%Y-%m-%d')`. */
  function FormatDate(d: Date): (s: string)
    requires ValidDate(d)
    ensures |s| == 10 && s[4] == '-' && s[7] == '-'
    ensures forall i :: 0 <= i < |s| && i != 4 && i != 7 ==> IsDigit(s[i])
  {
    Pad(d.year, 4) + "-" + Pad(d.month, 2) + "-" + Pad(d.day, 2)
  }

  /** The inverse of FormatDate. */
  function ParseDate(s: string): Date
    requires |s| == 10
    requires forall i :: 0 <= i < |s| && i != 4 && i != 7 ==> IsDigit(s[i])
  {
    Date(ParseDigits(s[0..4]), ParseDigits(s[5..7]), ParseDigits(s[8..10]))
  }

  /** The file-name rendering of a date loses nothing: distinct buckets get
      distinct names. */
  lemma {:induction false} DateRoundTrip(d: Date)
    requires ValidDate(d)
    ensures ParseDate(FormatDate(d)) == d
  {
    var s := FormatDate(d);
    assert s[0..4] == Pad(d.year, 4);
    assert s[5..7] == Pad(d.month, 2);
    assert s[8..10] == Pad(d.day, 2);
    assert Pow10(4) == 10000 && Pow10(2) == 100;
    ParsePad(d.year, 4);
    ParsePad(d.month, 2);
    ParsePad(d.day, 2);
  }

  lemma FormatDateInjective(d: Date, e: Date)
    requires ValidDate(d) && ValidDate(e) && FormatDate(d) == FormatDate(e)
    ensures d == e
  {
    DateRoundTrip(d);
    DateRoundTrip(e);
  }

  /** `strftime('%Y-%m-%d %H:%M:%S')`, the capture timestamp of a record:
      the date text, a space, then hour, minute and second as two digits
      each, separated by colons. Every field reads back. */
  function FormatTimestamp(t: LocalTime): (s: string)
    requires ValidTime(t)
    ensures |s| == 19 && s[..10] == FormatDate(t.date) && s[10] == ' ' && s[13] == ':' && s[16] == ':'
    ensures forall i :: 11 <= i < 19 && i != 13 && i != 16 ==> IsDigit(s[i])
    ensures ParseDate(s[..10]) == t.date
    ensures ParseDigits(s[11..13]) == t.hour
    ensures ParseDigits(s[14..16]) == t.minute
    ensures ParseDigits(s[17..19]) == t.second
  {
    var s := FormatDate(t.date) + " " + Pad(t.hour, 2) + ":" + Pad(t.minute, 2) + ":" + Pad(t.second, 2);
    assert s[..10] == FormatDate(t.date);
    assert s[11..13] == Pad(t.hour, 2);
    assert s[14..16] == Pad(t.minute, 2);
    assert s[17..19] == Pad(t.second, 2);
    assert Pow10(2) == 100;
    DateRoundTrip(t.date);
    ParsePad(t.hour, 2);
    ParsePad(t.minute, 2);
    ParsePad(t.second, 2);
    s
  }
}
