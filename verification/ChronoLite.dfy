/** UTC timestamps as the payment edge writes, reads and compares them (RFC 3339, section 5.6). */
module ChronoLite {
  import opened Prelude
  import opened Calendar

  /** The first second that needs a five-digit year. */
  const LIMIT: nat := 253402300800

  /** Days before 1970-01-01. */
  const EPOCH_DAYS: nat := 719528

  // The rules as this file of the source writes them.
  predicate IsLeapHere(year: nat) {
    (year % 4 == 0 && year % 100 != 0) || year % 400 == 0
  }

  function DaysInMonth(year: nat, month: nat): nat {
    if month in {1, 3, 5, 7, 8, 10, 12} then 31
    else if month in {4, 6, 9, 11} then 30
    else if IsLeapHere(year) then 29
    else 28
  }

  lemma SameCalendar(year: nat, month: nat)
    ensures IsLeapHere(year) <==> IsLeap(year)
    ensures 1 <= month <= 12 ==> DaysInMonth(year, month) == MonthLength(year, month)
  {
    HundredsAreFours(year);
    FourHundredsAreHundreds(year);
  }

  datatype Instant = Instant(date: Date, hour: nat, minute: nat, second: nat)

  predicate ValidInstant(t: Instant) {
    ValidDate(t.date) && t.date.year >= 1970 && t.hour < 24 && t.minute < 60 && t.second < 60
  }

  function SecondOfDay(t: Instant): nat {
    t.hour * 3600 + t.minute * 60 + t.second
  }

  function SecondsOf(t: Instant): int
    requires ValidDate(t.date)
  {
    (DayNumber(t.date) - EPOCH_DAYS) * 86400 + SecondOfDay(t)
  }

  lemma EpochDays()
    ensures DaysBeforeYear(1970) == EPOCH_DAYS && DaysBeforeYear(10000) == EPOCH_DAYS + LIMIT / 86400
  {
    DaysBeforeYearClosed(1970);
    DaysBeforeYearClosed(10000);
  }

  /** Where the calendar of the timestamps begins and ends, in days. */
  lemma CalendarBounds(year: nat)
    ensures year >= 1970 ==> DaysBeforeYear(year) >= EPOCH_DAYS
    ensures year < 10000 ==> DaysBeforeYear(year) + YearLength(year) <= EPOCH_DAYS + LIMIT / 86400
    ensures year >= 10000 ==> DaysBeforeYear(year) >= EPOCH_DAYS + LIMIT / 86400
    ensures year > 10000 ==> DaysBeforeYear(year) > EPOCH_DAYS + LIMIT / 86400
  {
    EpochDays();
    if year > 1970 {
      YearsGrow(1970, year);
    }
    if year < 10000 {
      YearsGrow(year, 10000);
    } else if year > 10000 {
      YearsGrow(10000, year);
    }
  }

  // ---------------------------------------------------------------- rendering

  /** Whole years taken off `days`, starting at `year`. */
  function WalkYears(year: nat, days: nat): (r: (nat, nat))
    ensures r.0 >= year && r.1 < YearLength(r.0)
    decreases days
  {
    if days < YearLength(year) then (year, days) else WalkYears(year + 1, days - YearLength(year))
  }

  lemma {:induction false} WalkYearsExact(year: nat, days: nat)
    ensures var r := WalkYears(year, days); DaysBeforeYear(year) + days == DaysBeforeYear(r.0) + r.1
    decreases days
  {
    if days >= YearLength(year) {
      WalkYearsExact(year + 1, days - YearLength(year));
    }
  }

  /** Whole months taken off `days`: it stops within December. */
  function WalkMonths(year: nat, month: nat, days: nat): (r: (nat, nat))
    requires 1 <= month <= 12 && DaysBeforeMonth(year, month) + days < YearLength(year)
    ensures month <= r.0 <= 12 && r.1 < MonthLength(year, r.0)
    ensures DaysBeforeMonth(year, month) + days == DaysBeforeMonth(year, r.0) + r.1
    decreases days
  {
    TwelveMonths(year);
    if days < MonthLength(year, month) then (month, days)
        else WalkMonths(year, month + 1, days - MonthLength(year, month))
  }

  /** The time of day in a number of seconds below one day. */
  function Clock(date: Date, rest: nat): (t: Instant)
    requires rest < 86400
    ensures t.date == date && t.hour < 24 && t.minute < 60 && t.second < 60 && SecondOfDay(t) == rest
  {
    var hour, within := rest / 3600, rest % 3600;
    Instant(date, hour, within / 60, within % 60)
  }

  /** The date a number of days after the epoch. */
  function DateOf(days: nat): (d: Date)
    ensures ValidDate(d) && d.year >= 1970 && DayNumber(d) == EPOCH_DAYS + days
  {
    EpochDays();
    WalkYearsExact(1970, days);
    var (year, inYear) := WalkYears(1970, days);
    var (month, inMonth) := WalkMonths(year, 1, inYear);
    Date(year, month, inMonth + 1)
  }

  function InstantOf(seconds: nat): (t: Instant)
    ensures ValidInstant(t) && SecondsOf(t) == seconds
  {
    Clock(DateOf(seconds / 86400), seconds % 86400)
  }

  /** At least four digits, more when the year needs them. */
  function YearText(year: nat): string {
    if year < 10000 then Pad(year, 4) else YearText(year / 10) + [Digit(year % 10)]
  }

  function Text(t: Instant): string
    requires ValidInstant(t)
  {
    YearText(t.date.year) + ['-'] + (Pad(t.date.month, 2) + ['-'] + Pad(t.date.day, 2)) + ['T'] + ClockText(t)
  }

  function ClockText(t: Instant): string
  {
    Pad(t.hour, 2) + [':'] + (Pad(t.minute, 2) + [':'] + (Pad(t.second, 2) + ['Z']))
  }

  function Format(seconds: nat): string {
    Text(InstantOf(seconds))
  }

  method FormatSeconds(seconds: u64) returns (text: string)
    ensures text == Format(seconds)
  {
    var days, rest := seconds / 86400, seconds % 86400;
    var year, inYear := TakeYears(1970, days);
    var month, inMonth := TakeMonths(year, inYear);
    var t := Clock(Date(year, month, inMonth + 1), rest);
    assert t.date == DateOf(days);
    text := Text(t);
  }

  /** The first loop of `format`. */
  method TakeYears(start: nat, total: nat) returns (year: nat, days: nat)
    ensures (year, days) == WalkYears(start, total)
  {
    year, days := start, total;
    SameCalendar(year, 1);
    while days >= (if IsLeapHere(year) then 366 else 365)
      invariant WalkYears(year, days) == WalkYears(start, total)
      invariant IsLeapHere(year) <==> IsLeap(year)
      decreases days
    {
      days := days - if IsLeapHere(year) then 366 else 365;
      year := year + 1;
      SameCalendar(year, 1);
    }
  }

  /** The second loop of `format`: it stops within December. */
  method TakeMonths(year: nat, total: nat) returns (month: nat, days: nat)
    requires total < YearLength(year)
    ensures (month, days) == WalkMonths(year, 1, total) && 1 <= month <= 12
  {
    month, days := 1, total;
    SameCalendar(year, month);
    while days >= DaysInMonth(year, month)
      invariant 1 <= month <= 12 && DaysBeforeMonth(year, month) + days < YearLength(year)
      invariant WalkMonths(year, month, days) == WalkMonths(year, 1, total)
      invariant DaysInMonth(year, month) == MonthLength(year, month)
      decreases days
    {
      TwelveMonths(year);
      days := days - DaysInMonth(year, month);
      month := month + 1;
      SameCalendar(year, month);
    }
  }

  // ---------------------------------------------------------------- reading back

  /** `str::parse::<u64>` on a few characters: digits, with one `+` allowed in front. */
  function ParseNumber(s: string): Option<nat> {
    var digits := if s != "" && s[0] == '+' then s[1..] else s;
    if digits != "" && AllDigits(digits) then Some(NumberOf(digits)) else None
  }

  function Field(text: string, lo: nat, hi: nat): Option<nat>
    requires lo <= hi <= |text|
  {
    ParseNumber(text[lo..hi])
  }

  predicate Shaped(text: string) {
    |text| >= 20 && text[|text| - 1] == 'Z'
  }

  predicate InRange(t: Instant) {
    1970 <= t.date.year <= 9999 && ValidDate(t.date) && t.hour <= 23 && t.minute <= 59 && t.second <= 60
  }

  /** The six numbers of a timestamp; the characters between them are not looked at. */
  function Fields(text: string): Option<Instant>
    requires Shaped(text)
  {
    var year, month, day := Field(text, 0, 4), Field(text, 5, 7), Field(text, 8, 10);
    var hour, minute, second := Field(text, 11, 13), Field(text, 14, 16), Field(text, 17, 19);
    if year.Some? && month.Some? && day.Some? && hour.Some? && minute.Some? && second.Some? then
      Some(Instant(Date(year.value, month.value, day.value), hour.value, minute.value, second.value))
    else None
  }

  function Parse(text: string): Option<int> {
    if !Shaped(text) then None
    else
      var t := Fields(text);
      if t.Some? && InRange(t.value) then Some(SecondsOf(t.value)) else None
  }

  method ParseTimestamp(text: string) returns (seconds: Option<int>)
    ensures seconds == Parse(text)
  {
    if |text| < 20 || text[|text| - 1] != 'Z' {
      return None;
    }
    var fields := Fields(text);
    if fields.None? {
      return None;
    }
    var year, month, day := fields.value.date.year, fields.value.date.month, fields.value.date.day;
    var hour, minute, second := fields.value.hour, fields.value.minute, fields.value.second;
    SameCalendar(year, month);
    if !(1970 <= year <= 9999) || !(1 <= month <= 12) || day == 0 || day > DaysInMonth(year, month) {
      return None;
    }
    if hour > 23 || minute > 59 || second > 60 {
      return None;
    }
    var days := CountDays(year, month);
    days := days + day - 1;
    return Some(days * 86400 + hour * 3600 + minute * 60 + second);
  }

  /** The two loops of `parse`: the days before a month, since the epoch. */
  method CountDays(year: nat, month: nat) returns (days: nat)
    requires 1970 <= year && 1 <= month <= 12
    ensures days == DaysBeforeYear(year) - EPOCH_DAYS + DaysBeforeMonth(year, month)
  {
    EpochDays();
    days := 0;
    for y := 1970 to year
      invariant days == DaysBeforeYear(y) - EPOCH_DAYS
    {
      SameCalendar(y, 1);
      days := days + if IsLeapHere(y) then 366 else 365;
    }
    for m := 1 to month
      invariant days == DaysBeforeYear(year) - EPOCH_DAYS + DaysBeforeMonth(year, m)
    {
      SameCalendar(year, m);
      days := days + DaysInMonth(year, m);
    }
  }

  // ---------------------------------------------------------------- inverse and order

  lemma SplitSeconds(days: nat, rest: nat, days': nat, rest': nat)
    requires rest < 86400 && rest' < 86400
    ensures days * 86400 + rest < days' * 86400 + rest' <==> days < days' || (days == days' && rest < rest')
    ensures days * 86400 + rest == days' * 86400 + rest' ==> days == days' && rest == rest'
  {
  }

  /** A second of the day names its hour, minute and second. */
  lemma ClockRecovered(a: Instant, b: Instant)
    requires ValidInstant(a) && ValidInstant(b) && SecondOfDay(a) == SecondOfDay(b)
    ensures a.hour == b.hour && a.minute == b.minute && a.second == b.second
  {
    assert a.hour * 60 + a.minute == b.hour * 60 + b.minute;
  }

  lemma SecondsOrder(a: Instant, b: Instant)
    requires ValidInstant(a) && ValidInstant(b)
    ensures SecondsOf(a) < SecondsOf(b) <==>
            DayNumber(a.date) < DayNumber(b.date) || (a.date == b.date && SecondOfDay(a) < SecondOfDay(b))
    ensures SecondsOf(a) == SecondsOf(b) ==> a == b
  {
    DayNumberOrder(a.date, b.date);
    CalendarBounds(a.date.year);
    CalendarBounds(b.date.year);
    DayNumberWithinYear(a.date);
    DayNumberWithinYear(b.date);
    SplitSeconds(DayNumber(a.date) - EPOCH_DAYS, SecondOfDay(a), DayNumber(b.date) - EPOCH_DAYS, SecondOfDay(b));
    if SecondOfDay(a) == SecondOfDay(b) {
      ClockRecovered(a, b);
    }
  }

  lemma YearBelowLimit(t: Instant)
    requires ValidInstant(t)
    ensures t.date.year < 10000 <==> SecondsOf(t) < LIMIT
  {
    CalendarBounds(t.date.year);
    DayNumberWithinYear(t.date);
  }

  lemma ClockOrder(a: Instant, b: Instant)
    requires ValidInstant(a) && ValidInstant(b)
    ensures Less(ClockText(a), ClockText(b)) <==> SecondOfDay(a) < SecondOfDay(b)
  {
    assert Pow10(2) == 100;
    FieldOrder(a.hour, b.hour, 2, ':', Pad(a.minute, 2) + [':'] + (Pad(a.second, 2) + ['Z']),
               Pad(b.minute, 2) + [':'] + (Pad(b.second, 2) + ['Z']));
    FieldOrder(a.minute, b.minute, 2, ':', Pad(a.second, 2) + ['Z'], Pad(b.second, 2) + ['Z']);
    FieldOrder(a.second, b.second, 2, 'Z', "", "");
    assert Pad(a.second, 2) + ['Z'] + "" == Pad(a.second, 2) + ['Z'];
    assert Pad(b.second, 2) + ['Z'] + "" == Pad(b.second, 2) + ['Z'];
  }

  lemma TextForm(t: Instant)
    requires ValidInstant(t) && t.date.year < 10000
    ensures Text(t) == DateText(t.date) + (['T'] + ClockText(t))
  {
  }

  lemma TextOrder(a: Instant, b: Instant)
    requires ValidInstant(a) && ValidInstant(b) && a.date.year < 10000 && b.date.year < 10000
    ensures Less(Text(a), Text(b)) <==> SecondsOf(a) < SecondsOf(b)
  {
    SecondsOrder(a, b);
    ClockOrder(a, b);
    DateTextOrder(a.date, b.date);
    TextForm(a);
    TextForm(b);
    LessConcat(DateText(a.date), ['T'] + ClockText(a), DateText(b.date), ['T'] + ClockText(b));
    LessConcat(['T'], ClockText(a), ['T'], ClockText(b));
  }

  /** Comparing two issued timestamps as strings compares their times. */
  lemma FormatOrder(s: nat, t: nat)
    requires s < LIMIT && t < LIMIT
    ensures Less(Format(s), Format(t)) <==> s < t
  {
    var a, b := InstantOf(s), InstantOf(t);
    YearBelowLimit(a);
    YearBelowLimit(b);
    TextOrder(a, b);
  }

  lemma ParsePad(n: nat, w: nat)
    requires w > 0 && n < Pow10(w)
    ensures ParseNumber(Pad(n, w)) == Some(n)
  {
    assert Pad(n, w)[0] in Pad(n, w);
    NumberOfPad(n, w);
  }

  /** Reading an issued timestamp gives back its instant. */
  lemma FieldsOfText(t: Instant)
    requires ValidInstant(t) && t.date.year < 10000
    ensures Shaped(Text(t)) && Fields(Text(t)) == Some(t)
  {
    SlicesOfText(t, Text(t));
    FieldsOfSlices(t, Text(t));
  }

  lemma FieldsOfSlices(t: Instant, text: string)
    requires ValidInstant(t) && t.date.year < 10000 && |text| == 20 && text[19] == 'Z'
    requires text[0..4] == Pad(t.date.year, 4) && text[5..7] == Pad(t.date.month, 2)
             && text[8..10] == Pad(t.date.day, 2)
    requires text[11..13] == Pad(t.hour, 2) && text[14..16] == Pad(t.minute, 2) && text[17..19] == Pad(t.second, 2)
    ensures Fields(text) == Some(t)
  {
    assert Pow10(4) == 10000 && Pow10(2) == 100;
    MonthAndDayFit(t.date);
    ParsePad(t.date.year, 4);
    ParsePad(t.date.month, 2);
    ParsePad(t.date.day, 2);
    ParsePad(t.hour, 2);
    ParsePad(t.minute, 2);
    ParsePad(t.second, 2);
  }

  lemma SlicesOfText(t: Instant, text: string)
    requires ValidInstant(t) && t.date.year < 10000 && text == Text(t)
    ensures |text| == 20 && text[19] == 'Z'
    ensures text[0..4] == Pad(t.date.year, 4) && text[5..7] == Pad(t.date.month, 2) && text[8..10] == Pad(t.date.day, 2)
    ensures text[11..13] == Pad(t.hour, 2) && text[14..16] == Pad(t.minute, 2) && text[17..19] == Pad(t.second, 2)
  {
  }

  lemma ParseBounded(text: string)
    ensures Parse(text).Some? ==> 0 <= Parse(text).value <= LIMIT
  {
    if Parse(text).Some? {
      var t := Fields(text).value;
      CalendarBounds(t.date.year);
      DayNumberWithinYear(t.date);
    }
  }

  lemma MoreDigits(year: nat)
    ensures 10000 <= year < 100000 ==> |YearText(year)| == 5
    ensures 100000 <= year < 1000000 ==> |YearText(year)| == 6
  {
    if 10000 <= year < 100000 {
      assert |YearText(year / 10)| == 4;
    } else if 100000 <= year < 1000000 {
      assert |YearText(year / 10 / 10)| == 4;
      assert |YearText(year / 10)| == 5;
    }
  }

  lemma DashIsNoMonth(text: string, at: nat)
    requires Shaped(text) && 5 <= at < 7 && text[at] == '-'
    ensures Parse(text).None?
  {
    assert text[5..7][at - 5] == '-';
    assert !AllDigits(text[5..7]) && (text[5..7][0] == '+' ==> at == 5 || !AllDigits(text[5..7][1..]));
  }

  /** A timestamp of a year of five or six digits does not read back. */
  lemma LongYearDoesNotParse(t: Instant)
    requires ValidInstant(t) && 10000 <= t.date.year < 1000000
    ensures Parse(Text(t)).None?
  {
    MoreDigits(t.date.year);
    DashIsNoMonth(Text(t), |YearText(t.date.year)|);
  }

  lemma LimitIsNewYear(t: Instant)
    requires ValidInstant(t) && SecondsOf(t) == LIMIT
    ensures t.date.year == 10000
  {
    CalendarBounds(t.date.year);
    DayNumberWithinYear(t.date);
  }

  /** The reader inverts the renderer on exactly the instants before the year 10000. */
  lemma RoundTripExactly(s: nat)
    ensures Parse(Format(s)) == Some(s) <==> s < LIMIT
  {
    var t := InstantOf(s);
    YearBelowLimit(t);
    if s < LIMIT {
      FieldsOfText(t);
    } else {
      ParseBounded(Text(t));
      if s == LIMIT {
        LimitIsNewYear(t);
        LongYearDoesNotParse(t);
      }
    }
  }

  lemma LastOfFourDigits(t: Instant)
    requires ValidInstant(t) && SecondsOf(t) == LIMIT - 1
    ensures t.date.year == 9999
  {
    CalendarBounds(t.date.year);
    CalendarBounds(9999);
    DayNumberWithinYear(t.date);
    if t.date.year < 9999 {
      YearsGrow(t.date.year, 9999);
    }
  }

  lemma FirstOfYearText(year: nat)
    ensures year == 9999 ==> YearText(year)[0] == '9'
    ensures year == 10000 ==> YearText(year)[0] == '1'
  {
    if year == 9999 {
      FirstDigitOfFour(year);
    } else if year == 10000 {
      FirstDigitOfFour(year / 10);
      assert YearText(year)[..4] == YearText(year / 10);
    }
  }

  lemma SmallerFirst(a: string, b: string)
    requires a != [] && b != [] && a[0] < b[0]
    ensures Less(a, b)
  {
  }

  lemma FiveDigitsSortFirst(later: Instant, earlier: Instant)
    requires ValidInstant(later) && ValidInstant(earlier) && later.date.year == 10000 && earlier.date.year == 9999
    ensures Less(Text(later), Text(earlier))
  {
    FirstOfYearText(later.date.year);
    FirstOfYearText(earlier.date.year);
    assert Text(later)[0] == YearText(later.date.year)[0] && Text(earlier)[0] == YearText(earlier.date.year)[0];
    SmallerFirst(Text(later), Text(earlier));
  }

  /** The first second of the year 10000 sorts before the last of the year 9999. */
  lemma YearTenThousandSortsFirst()
    ensures Less(Format(LIMIT), Format(LIMIT - 1))
  {
    LimitIsNewYear(InstantOf(LIMIT));
    LastOfFourDigits(InstantOf(LIMIT - 1));
    FiveDigitsSortFirst(InstantOf(LIMIT), InstantOf(LIMIT - 1));
  }

  /** String order is time order on the instants before `n` exactly when none of them needs a five-digit year. */
  lemma FormatOrderExactly(n: nat)
    ensures (forall s: nat, t: nat | s < n && t < n :: Less(Format(s), Format(t)) <==> s < t) <==> n <= LIMIT
  {
    if n <= LIMIT {
      forall s: nat, t: nat | s < n && t < n ensures Less(Format(s), Format(t)) <==> s < t {
        FormatOrder(s, t);
      }
    } else {
      YearTenThousandSortsFirst();
    }
  }

  // ---------------------------------------------------------------- the shape of a timestamp

  /** A year is written in decimal, in at least four digits and with no more than it needs. */
  lemma {:induction false} YearTextIsDecimal(year: nat)
    ensures AllDigits(YearText(year)) && NumberOf(YearText(year)) == year
    ensures |YearText(year)| >= 4 && (|YearText(year)| == 4 <==> year < 10000)
    ensures year >= 10000 ==> YearText(year)[0] != '0'
  {
    if year < 10000 {
      assert Pow10(4) == 10000;
      NumberOfPad(year, 4);
    } else {
      YearTextIsDecimal(year / 10);
      var text := YearText(year / 10) + [Digit(year % 10)];
      assert text[..|text| - 1] == YearText(year / 10);
      if year < 100000 {
        FirstDigitOfFour(year / 10);
      }
    }
  }

  lemma FirstDigitOfFour(n: nat)
    requires 1000 <= n < 10000
    ensures Pad(n, 4)[0] == Digit(n / 1000) && Digit(n / 1000) != '0'
  {
    assert Pad(n, 4)[..3] == Pad(n / 10, 3) && Pad(n / 10, 3)[..2] == Pad(n / 100, 2);
    assert Pad(n / 100, 2)[..1] == Pad(n / 1000, 1);
    assert Pad(n / 1000, 1)[0] == Digit(n / 1000);
  }

  /** A timestamp reads `YYYY-MM-DDTHH:MM:SSZ`, with more digits of the year where it needs them. */
  lemma TimestampShape(seconds: nat)
    ensures var t := InstantOf(seconds);
            Format(seconds) ==
            YearText(t.date.year) + "-" + Pad(t.date.month, 2) + "-" + Pad(t.date.day, 2) + "T"
            + Pad(t.hour, 2) + ":" + Pad(t.minute, 2) + ":" + Pad(t.second, 2) + "Z"
  {
    ShapeOf(InstantOf(seconds));
  }

  lemma ShapeOf(t: Instant)
    requires ValidInstant(t)
    ensures Text(t) ==
            YearText(t.date.year) + "-" + Pad(t.date.month, 2) + "-" + Pad(t.date.day, 2) + "T"
            + Pad(t.hour, 2) + ":" + Pad(t.minute, 2) + ":" + Pad(t.second, 2) + "Z"
  {
  }

  /** The six numbers stand at their places, whatever stands between them. */
  predicate Reads(text: string, year: nat, month: nat, day: nat, hour: nat, minute: nat, second: nat) {
    && |text| >= 20 && text[|text| - 1] == 'Z'
    && text[0..4] == Pad(year, 4) && text[5..7] == Pad(month, 2) && text[8..10] == Pad(day, 2)
    && text[11..13] == Pad(hour, 2) && text[14..16] == Pad(minute, 2) && text[17..19] == Pad(second, 2)
  }

  /** The seconds of a date and time from 1970 on, a leap second included. */
  function Meant(t: Instant): Option<int> {
    if t.date.year >= 1970 && ValidDate(t.date) && t.hour < 24 && t.minute < 60 && t.second < 61
    then Some((DayNumber(t.date) - EPOCH_DAYS) * 86400 + t.hour * 3600 + t.minute * 60 + t.second)
    else None
  }

  /** What a text with six numbers parses to: the time they mean, or nothing where they mean none. */
  lemma ParseOfNumbers(text: string, year: nat, month: nat, day: nat, hour: nat, minute: nat, second: nat)
    requires year < 10000 && month < 100 && day < 100 && hour < 100 && minute < 100 && second < 100
    requires Reads(text, year, month, day, hour, minute, second)
    ensures Parse(text) == Meant(Instant(Date(year, month, day), hour, minute, second))
  {
    FieldsOfNumbers(text, year, month, day, hour, minute, second);
    ParseOfFields(text, Instant(Date(year, month, day), hour, minute, second));
  }

  lemma FieldsOfNumbers(text: string, year: nat, month: nat, day: nat, hour: nat, minute: nat, second: nat)
    requires year < 10000 && month < 100 && day < 100 && hour < 100 && minute < 100 && second < 100
    requires Reads(text, year, month, day, hour, minute, second)
    ensures Fields(text) == Some(Instant(Date(year, month, day), hour, minute, second))
  {
    assert Pow10(4) == 10000 && Pow10(2) == 100;
    ParsePad(year, 4);
    ParsePad(month, 2);
    ParsePad(day, 2);
    ParsePad(hour, 2);
    ParsePad(minute, 2);
    ParsePad(second, 2);
  }

  lemma ParseOfFields(text: string, t: Instant)
    requires Shaped(text) && Fields(text) == Some(t) && t.date.year < 10000
    ensures Parse(text) == Meant(t)
  {
    if t.date.year >= 1970 && ValidDate(t.date) {
      assert SecondsOf(t) == (DayNumber(t.date) - EPOCH_DAYS) * 86400 + SecondOfDay(t);
    }
  }

  /** A field is digits, with at most one plus sign in front. */
  lemma NumberFields(s: string)
    ensures ParseNumber(s).Some? <==> (s != "" && AllDigits(s)) || (|s| > 1 && s[0] == '+' && AllDigits(s[1..]))
    ensures s != "" && AllDigits(s) ==> ParseNumber(s) == Some(NumberOf(s))
    ensures |s| > 1 && s[0] == '+' && AllDigits(s[1..]) ==> ParseNumber(s) == Some(NumberOf(s[1..]))
  {
  }

  // ---------------------------------------------------------------- the comparisons verification makes

  /** Strictly past; a timestamp that cannot be read counts as past. */
  predicate IsAfter(now: nat, timestamp: string) {
    var parsed := Parse(timestamp);
    parsed.None? || now > parsed.value
  }

  function Plus(now: nat, offset: nat): string {
    Format(Saturate(now + offset))
  }

  /** The expiry window that `verify` enforces with one parse and one string comparison. */
  predicate InWindow(now: nat, ttl: nat, expires: string) {
    !(IsAfter(now, expires) || Less(Plus(now, ttl), expires))
  }

  lemma AfterIsNumeric(now: nat, x: nat)
    requires x < LIMIT
    ensures IsAfter(now, Format(x)) <==> now > x
  {
    RoundTripExactly(x);
  }

  lemma PlusOrder(now: nat, ttl: nat, x: nat)
    requires x < LIMIT && now + ttl < LIMIT
    ensures Less(Plus(now, ttl), Format(x)) <==> now + ttl < x
  {
    FormatOrder(Saturate(now + ttl), x);
  }

  lemma WindowIsNumeric(now: nat, ttl: nat, x: nat)
    requires x < LIMIT && now + ttl < LIMIT
    ensures InWindow(now, ttl, Format(x)) <==> now <= x <= now + ttl
  {
    AfterIsNumeric(now, x);
    PlusOrder(now, ttl, x);
  }
}
