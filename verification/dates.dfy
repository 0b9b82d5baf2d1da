/** Calendar dates as java.time.LocalDate treats them (proleptic Gregorian
    calendar), and the date helpers of DateUtils. "Today" is always a
    parameter: the model has no clock. */
module Dates {
  import opened Common

  datatype Date = Date(year: int, month: int, day: int)

  /** The Gregorian leap-year rule (IsoChronology.isLeapYear). Only whether a
      remainder is zero matters, so Dafny's Euclidean % agrees with Java's. */
  predicate IsLeapYear(year: int) {
    year % 4 == 0 && (year % 100 != 0 || year % 400 == 0)
  }

  function MonthLength(year: int, month: int): (n: int)
    requires 1 <= month <= 12
    ensures 28 <= n <= 31
    ensures month == 2 ==> (n == 29 <==> IsLeapYear(year))
    ensures month != 2 ==> (n == 31 <==> month in {1, 3, 5, 7, 8, 10, 12})
  {
    if month == 2 then (if IsLeapYear(year) then 29 else 28)
    else if month in {4, 6, 9, 11} then 30
    else 31
  }

  predicate ValidDate(d: Date) {
    1 <= d.month <= 12 && 1 <= d.day <= MonthLength(d.year, d.month)
  }

  /** A value of java.time.LocalDate. */
  type LocalDate = d: Date | ValidDate(d) witness Date(2000, 1, 1)

  /** LocalDate.isBefore: strictly earlier in calendar order. */
  predicate Before(a: Date, b: Date) {
    a.year < b.year
    || (a.year == b.year && a.month < b.month)
    || (a.year == b.year && a.month == b.month && a.day < b.day)
  }

  /** Calendar order is a strict total order. */
  lemma BeforeIsStrictTotalOrder(a: Date, b: Date, c: Date)
    ensures !Before(a, a)
    ensures Before(a, b) && Before(b, c) ==> Before(a, c)
    ensures a != b ==> Before(a, b) || Before(b, a)
    ensures Before(a, b) ==> !Before(b, a)
  {
  }

  /** The months elapsed since January of year 0. */
  function MonthIndex(d: Date): int {
    d.year * 12 + d.month - 1
  }

  /** LocalDate.plusMonths: move the year-month by n and clamp the day to the
      length of the month reached. */
  function PlusMonths(d: LocalDate, n: int): (r: LocalDate)
    ensures MonthIndex(r) == MonthIndex(d) + n
    ensures r.day <= d.day
    ensures r.day == d.day || r.day == MonthLength(r.year, r.month)
  {
    if n == 0 then d
    else
      var index := MonthIndex(d) + n;
      var year := index / 12;
      var month := index % 12 + 1;
      var length := MonthLength(year, month);
      Date(year, month, if d.day <= length then d.day else length)
  }

  /** A day that exists in every month survives any number of month steps,
      so stepping by a and then by b is stepping by a + b. */
  lemma PlusMonthsCompose(d: LocalDate, a: int, b: int)
    requires d.day <= 28
    ensures PlusMonths(PlusMonths(d, a), b) == PlusMonths(d, a + b)
  {
    var ab := PlusMonths(d, a + b);
    var r := PlusMonths(PlusMonths(d, a), b);
    assert r.year == ab.year && r.month == ab.month by {
      MonthIndexDetermines(r, ab);
    }
  }

  lemma MonthIndexDetermines(a: Date, b: Date)
    requires 1 <= a.month <= 12 && 1 <= b.month <= 12
    requires MonthIndex(a) == MonthIndex(b)
    ensures a.year == b.year && a.month == b.month
  {
    DivModTwelve(a.year, a.month - 1);
    DivModTwelve(b.year, b.month - 1);
  }

  lemma DivModTwelve(q: int, r: int)
    requires 0 <= r < 12
    ensures (q * 12 + r) / 12 == q && (q * 12 + r) % 12 == r
  {
  }

  /** DateUtils.firstDayOfMonth; None stands for the DateTimeException that
      LocalDate.of throws for a month outside 1..12. */
  function FirstDayOfMonth(month: int, year: int): (r: Option<LocalDate>)
    ensures r.Some? <==> 1 <= month <= 12
    ensures r.Some? ==> r.value.year == year && r.value.month == month && r.value.day == 1
  {
    if 1 <= month <= 12 then Some(Date(year, month, 1)) else None
  }

  /** DateUtils.lastDayOfMonth: the day of the month whose successor day does
      not exist in that month. */
  function LastDayOfMonth(month: int, year: int): (r: Option<LocalDate>)
    ensures r.Some? <==> 1 <= month <= 12
    ensures r.Some? ==> r.value.year == year && r.value.month == month
    ensures r.Some? ==> !ValidDate(Date(year, month, r.value.day + 1))
  {
    if 1 <= month <= 12 then Some(Date(year, month, MonthLength(year, month))) else None
  }

  /** The first and last day bracket the month: every valid day of that month
      lies between them, and the first is not after the last. */
  lemma FirstAndLastBracketTheMonth(month: int, year: int, d: LocalDate)
    requires 1 <= month <= 12
    ensures !Before(LastDayOfMonth(month, year).value, FirstDayOfMonth(month, year).value)
    ensures d.year == year && d.month == month <==>
      !Before(d, FirstDayOfMonth(month, year).value) && !Before(LastDayOfMonth(month, year).value, d)
  {
  }

  /** DateUtils.isCurrentMonth, with today passed in: for a real month,
      today is in it exactly when it lies between the month's first and last
      day. */
  function IsCurrentMonth(today: LocalDate, month: int, year: int): (current: bool)
    ensures 1 <= month <= 12 ==> (current <==>
      !Before(today, FirstDayOfMonth(month, year).value) && !Before(LastDayOfMonth(month, year).value, today))
    ensures !(1 <= month <= 12) ==> !current
    ensures current ==> today.year == year
  {
    if 1 <= month <= 12 then FirstAndLastBracketTheMonth(month, year, today); today.month == month && today.year == year
    else today.month == month && today.year == year
  }

  /** DateUtils.isOverdue, with today passed in: a missing due date is never
      overdue; otherwise overdue means strictly before today. */
  function IsOverdue(today: LocalDate, dueDate: Option<LocalDate>): (overdue: bool)
    ensures dueDate.None? ==> !overdue
    ensures dueDate.Some? ==> (overdue <==> Before(dueDate.value, today))
    ensures dueDate == Some(today) ==> !overdue
  {
    match dueDate
    case None => false
    case Some(d) => Before(d, today)
  }

  // ---------------------------------------------------------------------------
  // formatDate: pattern "dd/MM/yyyy"

  /** Two-digit, zero-padded field ("dd", "MM"). */
  function Pad2(n: nat): (s: string)
    requires n < 100
    ensures |s| == 2 && DecimalValue(s) == n
    ensures forall i :: 0 <= i < 2 ==> '0' <= s[i] <= '9'
  {
    var s := [DigitChar(n / 10)] + [DigitChar(n % 10)];
    DecimalValueSnoc([DigitChar(n / 10)], DigitChar(n % 10));
    DecimalValueSnoc([], DigitChar(n / 10));
    assert [] + [DigitChar(n / 10)] == [DigitChar(n / 10)];
    s
  }

  /** Four-digit, zero-padded field. */
  function Pad4(n: nat): (s: string)
    requires n < 10000
    ensures |s| == 4 && DecimalValue(s) == n
    ensures forall i :: 0 <= i < 4 ==> '0' <= s[i] <= '9'
  {
    var s := Pad2(n / 100) + Pad2(n % 100);
    DecimalValueOfFour(s);
    assert s[..2] == Pad2(n / 100) && s[2..] == Pad2(n % 100);
    s
  }

  lemma DecimalValueOfFour(s: string)
    requires |s| == 4
    ensures DecimalValue(s) == 100 * DecimalValue(s[..2]) + DecimalValue(s[2..])
  {
    assert s == s[..2] + s[2..];
    DecimalValueAppend(s[..2], s[2..]);
  }

  /** "yyyy" is the year of era: year 1 - y for years before 1. It is padded
      to four digits and, past four digits, written with a leading '+'
      (SignStyle.EXCEEDS_PAD). */
  function YearOfEra(year: int): (y: nat) {
    if year >= 1 then year else 1 - year
  }

  function YearText(year: int): (s: string)
    ensures YearOfEra(year) < 10000 ==> s == Pad4(YearOfEra(year))
    ensures YearOfEra(year) >= 10000 ==> s == "+" + NatToDecimal(YearOfEra(year))
  {
    var y := YearOfEra(year);
    if y < 10000 then Pad4(y) else "+" + NatToDecimal(y)
  }

  /** DateUtils.formatDate: null formats to null. */
  function FormatDate(d: Option<LocalDate>): (r: Option<string>)
    ensures d.None? <==> r.None?
    ensures d.Some? && 1 <= d.value.year <= 9999 ==> |r.value| == 10 && r.value[2] == '/' && r.value[5] == '/'
  {
    match d
    case None => None
    case Some(date) => Some(Pad2(date.day) + "/" + Pad2(date.month) + "/" + YearText(date.year))
  }

  /** Reads back a "dd/MM/yyyy" text. */
  function ParseDate(s: string): Option<Date> {
    if |s| == 10 && s[2] == '/' && s[5] == '/'
       && forall i :: 0 <= i < 10 && i != 2 && i != 5 ==> '0' <= s[i] <= '9'
    then Some(Date(DecimalValue(s[6..]), DecimalValue(s[3..5]), DecimalValue(s[..2])))
    else None
  }

  /** For four-digit years of the common era, formatting loses nothing:
      parsing the text gives the date back. */
  lemma FormatDateRoundTrip(d: LocalDate)
    requires 1 <= d.year <= 9999
    ensures ParseDate(FormatDate(Some(d)).value) == Some(d)
  {
    var s := FormatDate(Some(d)).value;
    assert s[..2] == Pad2(d.day);
    assert s[3..5] == Pad2(d.month);
    assert s[6..] == Pad4(d.year);
  }

  // ---------------------------------------------------------------------------
  // formatDateTime: pattern "dd/MM/yyyy HH:mm"

  /** A java.time.LocalDateTime down to the minute; the seconds are not
      part of the pattern. */
  datatype DateTime = DateTime(date: LocalDate, hour: int, minute: int)

  predicate ValidTime(t: DateTime) {
    0 <= t.hour < 24 && 0 <= t.minute < 60
  }

  /** DateUtils.formatDateTime: the date as formatDate writes it, a space,
      then the zero-padded hour and minute. null formats to null. */
  function FormatDateTime(t: Option<DateTime>): (r: Option<string>)
    requires t.Some? ==> ValidTime(t.value)
    ensures t.None? <==> r.None?
    ensures t.Some? ==> |r.value| == |FormatDate(Some(t.value.date)).value| + 6
    ensures t.Some? ==> r.value[..|r.value| - 6] == FormatDate(Some(t.value.date)).value
    ensures t.Some? ==> r.value[|r.value| - 6] == ' ' && r.value[|r.value| - 3] == ':'
  {
    match t
    case None => None
    case Some(dt) =>
      var date := FormatDate(Some(dt.date)).value;
      var text := date + " " + Pad2(dt.hour) + ":" + Pad2(dt.minute);
      assert text[..|text| - 6] == date;
      Some(text)
  }

  /** Reads back a "dd/MM/yyyy HH:mm" text. */
  function ParseDateTime(s: string): Option<(Date, int, int)> {
    if |s| == 16 && s[10] == ' ' && s[13] == ':'
       && forall i :: 11 <= i < 16 && i != 13 ==> '0' <= s[i] <= '9'
    then match ParseDate(s[..10])
      case None => None
      case Some(d) => Some((d, DecimalValue(s[11..13]), DecimalValue(s[14..])))
    else None
  }

  /** For four-digit years of the common era, formatting a date and time
      loses nothing down to the minute. */
  lemma FormatDateTimeRoundTrip(t: DateTime)
    requires ValidTime(t) && 1 <= t.date.year <= 9999
    ensures ParseDateTime(FormatDateTime(Some(t)).value) == Some((t.date, t.hour, t.minute))
  {
    var s := FormatDateTime(Some(t)).value;
    FormatDateRoundTrip(t.date);
    assert s[..10] == FormatDate(Some(t.date)).value;
    assert s[11..13] == Pad2(t.hour);
    assert s[14..] == Pad2(t.minute);
  }
}
