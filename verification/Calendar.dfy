/** The Gregorian calendar of RFC 3339: leap years (appendix C), month lengths (section 5.7), day numbers and digits. */
module Calendar {
  import opened Prelude

  predicate IsLeap(year: nat) {
    year % 4 == 0 && (year % 100 != 0 || year % 400 == 0)
  }

  function YearLength(year: nat): nat {
    if IsLeap(year) then 366 else 365
  }

  function MonthLength(year: nat, month: nat): nat
    requires 1 <= month <= 12
  {
    [31, if IsLeap(year) then 29 else 28, 31, 30, 31, 30, 31, 31, 30, 31, 30, 31][month - 1]
  }

  datatype Date = Date(year: nat, month: nat, day: nat)

  predicate ValidDate(d: Date) {
    1 <= d.month <= 12 && 1 <= d.day <= MonthLength(d.year, d.month)
  }

  function DaysBeforeYear(year: nat): nat {
    if year == 0 then 0 else DaysBeforeYear(year - 1) + YearLength(year - 1)
  }

  function DaysBeforeMonth(year: nat, month: nat): nat
    requires 1 <= month <= 13
  {
    if month == 1 then 0 else DaysBeforeMonth(year, month - 1) + MonthLength(year, month - 1)
  }

  /** Days since 0000-01-01. */
  function DayNumber(d: Date): nat
    requires ValidDate(d)
  {
    DaysBeforeYear(d.year) + DaysBeforeMonth(d.year, d.month) + d.day - 1
  }

  predicate Earlier(a: Date, b: Date) {
    || a.year < b.year
    || (a.year == b.year && a.month < b.month)
    || (a.year == b.year && a.month == b.month && a.day < b.day)
  }

  lemma TwelveMonths(year: nat)
    ensures DaysBeforeMonth(year, 13) == YearLength(year)
  {
    var february := if IsLeap(year) then 29 else 28;
    assert DaysBeforeMonth(year, 2) == 31;
    assert DaysBeforeMonth(year, 3) == 31 + february;
    assert DaysBeforeMonth(year, 5) == 31 + february + 61;
    assert DaysBeforeMonth(year, 7) == 31 + february + 122;
    assert DaysBeforeMonth(year, 9) == 31 + february + 184;
    assert DaysBeforeMonth(year, 11) == 31 + february + 245;
  }

  lemma {:induction false} MonthsGrow(year: nat, m: nat, n: nat)
    requires 1 <= m < n <= 13
    ensures DaysBeforeMonth(year, m) + MonthLength(year, m) <= DaysBeforeMonth(year, n)
    decreases n
  {
    if m < n - 1 {
      MonthsGrow(year, m, n - 1);
    }
  }

  lemma {:induction false} YearsGrow(m: nat, n: nat)
    requires m < n
    ensures DaysBeforeYear(m) + YearLength(m) <= DaysBeforeYear(n)
    decreases n
  {
    if m < n - 1 {
      YearsGrow(m, n - 1);
    }
  }

  lemma DayNumberWithinYear(d: Date)
    requires ValidDate(d)
    ensures DaysBeforeYear(d.year) <= DayNumber(d) < DaysBeforeYear(d.year) + YearLength(d.year)
  {
    MonthsGrow(d.year, d.month, 13);
    TwelveMonths(d.year);
  }

  lemma EarlierMeansSmaller(a: Date, b: Date)
    requires ValidDate(a) && ValidDate(b) && Earlier(a, b)
    ensures DayNumber(a) < DayNumber(b)
  {
    DayNumberWithinYear(a);
    DayNumberWithinYear(b);
    if a.year < b.year {
      YearsGrow(a.year, b.year);
    } else if a.month < b.month {
      MonthsGrow(a.year, a.month, b.month);
    }
  }

  /** Calendar order is day-number order, so a day number names one date. */
  lemma DayNumberOrder(a: Date, b: Date)
    requires ValidDate(a) && ValidDate(b)
    ensures Earlier(a, b) <==> DayNumber(a) < DayNumber(b)
    ensures a == b <==> DayNumber(a) == DayNumber(b)
  {
    if Earlier(a, b) {
      EarlierMeansSmaller(a, b);
    } else if Earlier(b, a) {
      EarlierMeansSmaller(b, a);
    }
  }

  function One(b: bool): int {
    if b then 1 else 0
  }

  /** Multiples of `n` below `y`. */
  function Multiples(y: nat, n: nat): int
    requires n > 0
  {
    (y + n - 1) / n
  }

  /** Leap years before `year`. */
  function Leaps(year: nat): int {
    Multiples(year, 4) - Multiples(year, 100) + Multiples(year, 400)
  }

  lemma NextMultiple(y: nat, n: nat)
    requires n > 0
    ensures Multiples(y + 1, n) == Multiples(y, n) + One(y % n == 0)
  {
    var q, r := y / n, y % n;
    assert y == n * q + r;
    if r == 0 {
      Quotient(y + n, n, q + 1, 0);
      Quotient(y + n - 1, n, q, n - 1);
    } else {
      Quotient(y + n, n, q + 1, r);
      Quotient(y + n - 1, n, q + 1, r - 1);
    }
  }

  lemma Quotient(y: nat, n: nat, q: nat, r: nat)
    requires r < n && y == n * q + r
    ensures y / n == q && y % n == r
  {
    var d := y / n - q;
    assert n * d == n * (y / n) - n * q == r - y % n;
    assert d >= 1 ==> n * d >= n;
    assert d <= -1 ==> n * d + n <= 0;
  }

  lemma HundredsAreFours(y: nat)
    ensures y % 100 == 0 ==> y % 4 == 0
  {
    if y % 100 == 0 {
      Quotient(y, 4, 25 * (y / 100), 0);
    }
  }

  lemma FourHundredsAreHundreds(y: nat)
    ensures y % 400 == 0 ==> y % 100 == 0
  {
    if y % 400 == 0 {
      Quotient(y, 100, 4 * (y / 400), 0);
    }
  }

  lemma LeapRule(y: nat)
    ensures One(IsLeap(y)) == One(y % 4 == 0) - One(y % 100 == 0) + One(y % 400 == 0)
  {
    HundredsAreFours(y);
    FourHundredsAreHundreds(y);
  }

  lemma NextLeap(y: nat)
    ensures Leaps(y + 1) == Leaps(y) + One(IsLeap(y))
  {
    NextMultiple(y, 4);
    NextMultiple(y, 100);
    NextMultiple(y, 400);
    LeapRule(y);
  }

  lemma {:induction false} DaysBeforeYearClosed(year: nat)
    ensures DaysBeforeYear(year) == 365 * year + Leaps(year)
  {
    if year > 0 {
      DaysBeforeYearClosed(year - 1);
      NextLeap(year - 1);
    }
  }

  // ---------------------------------------------------------------- digits

  function Digit(n: nat): char
    requires n < 10
  {
    '0' + n as char
  }

  predicate IsDigit(c: char) {
    '0' <= c <= '9'
  }

  function DigitValue(c: char): nat
    requires IsDigit(c)
  {
    (c - '0') as nat
  }

  function Pow10(w: nat): nat {
    if w == 0 then 1 else 10 * Pow10(w - 1)
  }

  /** `n` in exactly `w` digits. */
  function Pad(n: nat, w: nat): (s: string)
    ensures |s| == w && forall c | c in s :: IsDigit(c)
  {
    if w == 0 then "" else Pad(n / 10, w - 1) + [Digit(n % 10)]
  }

  predicate AllDigits(s: string) {
    forall i | 0 <= i < |s| :: IsDigit(s[i])
  }

  function NumberOf(s: string): nat
    requires AllDigits(s)
  {
    if s == "" then 0 else 10 * NumberOf(s[..|s| - 1]) + DigitValue(s[|s| - 1])
  }

  lemma {:induction false} NumberOfPad(n: nat, w: nat)
    requires n < Pow10(w)
    ensures NumberOf(Pad(n, w)) == n
  {
    if w > 0 {
      NumberOfPad(n / 10, w - 1);
      assert Pad(n, w)[..w - 1] == Pad(n / 10, w - 1);
    }
  }

  lemma {:induction false} PadOfNumber(s: string)
    requires AllDigits(s)
    ensures NumberOf(s) < Pow10(|s|) && Pad(NumberOf(s), |s|) == s
  {
    if s != "" {
      var n := |s| - 1;
      PadOfNumber(s[..n]);
      assert NumberOf(s) / 10 == NumberOf(s[..n]) && NumberOf(s) % 10 == DigitValue(s[n]);
      assert Digit(DigitValue(s[n])) == s[n];
    }
  }

  /** Fixed-width decimals are different for different numbers. */
  lemma PadInjective(a: nat, b: nat, w: nat)
    requires a < Pow10(w) && b < Pow10(w)
    ensures Pad(a, w) == Pad(b, w) <==> a == b
  {
    NumberOfPad(a, w);
    NumberOfPad(b, w);
  }

  /** Fixed-width decimal order is numeric order. */
  lemma {:induction false} PadOrder(a: nat, b: nat, w: nat)
    requires a < Pow10(w) && b < Pow10(w)
    ensures Less(Pad(a, w), Pad(b, w)) <==> a < b
    ensures Pad(a, w) == Pad(b, w) <==> a == b
  {
    PadInjective(a, b, w);
    if w > 0 {
      PadOrder(a / 10, b / 10, w - 1);
      LessConcat(Pad(a / 10, w - 1), [Digit(a % 10)], Pad(b / 10, w - 1), [Digit(b % 10)]);
    }
  }

  /** A field, a separator, and the rest: the order compares the field first. */
  lemma FieldOrder(a: nat, b: nat, w: nat, separator: char, rest: string, rest': string)
    requires a < Pow10(w) && b < Pow10(w)
    ensures Less(Pad(a, w) + [separator] + rest, Pad(b, w) + [separator] + rest')
            <==> a < b || (a == b && Less(rest, rest'))
  {
    PadOrder(a, b, w);
    LessConcat(Pad(a, w) + [separator], rest, Pad(b, w) + [separator], rest');
    LessConcat(Pad(a, w), [separator], Pad(b, w), [separator]);
    assert a != b ==> Pad(a, w) + [separator] != Pad(b, w) + [separator] by {
      if Pad(a, w) + [separator] == Pad(b, w) + [separator] {
        assert Pad(a, w) == (Pad(a, w) + [separator])[..w];
        assert Pad(b, w) == (Pad(b, w) + [separator])[..w];
      }
    }
  }

  /** `YYYY-MM-DD`, the full-date of RFC 3339 section 5.6. */
  function DateText(d: Date): string {
    Pad(d.year, 4) + ['-'] + (Pad(d.month, 2) + ['-'] + Pad(d.day, 2))
  }

  lemma MonthAndDayFit(d: Date)
    requires ValidDate(d)
    ensures d.month < Pow10(2) && d.day < Pow10(2)
  {
    assert Pow10(2) == 100;
  }

  /** Byte order of dates is calendar order. */
  lemma DateTextOrder(a: Date, b: Date)
    requires ValidDate(a) && ValidDate(b) && a.year < 10000 && b.year < 10000
    ensures Less(DateText(a), DateText(b)) <==> DayNumber(a) < DayNumber(b)
    ensures DateText(a) == DateText(b) <==> a == b
  {
    MonthAndDayFit(a);
    MonthAndDayFit(b);
    assert Pow10(4) == 10000;
    FieldOrder(a.year, b.year, 4, '-', Pad(a.month, 2) + ['-'] + Pad(a.day, 2),
               Pad(b.month, 2) + ['-'] + Pad(b.day, 2));
    FieldOrder(a.month, b.month, 2, '-', Pad(a.day, 2), Pad(b.day, 2));
    PadOrder(a.day, b.day, 2);
    DayNumberOrder(a, b);
    DayNumberOrder(b, a);
    FieldOrder(b.year, a.year, 4, '-', Pad(b.month, 2) + ['-'] + Pad(b.day, 2),
               Pad(a.month, 2) + ['-'] + Pad(a.day, 2));
    FieldOrder(b.month, a.month, 2, '-', Pad(b.day, 2), Pad(a.day, 2));
    PadOrder(b.day, a.day, 2);
    LessTotal(DateText(a), DateText(b));
  }
}
