/** Which dated protocol versions validate their own headers: the check is a comparison of strings. */
module ProtocolVersion {
  import opened Prelude
  import opened Calendar

  const HEADER_VALIDATION_SINCE := "2026-07-28"

  datatype TrustFailure = MissingVersionHeader | UnvalidatedRevision(version: string) | MalformedVersion(raw: string)

  predicate IsLeapYear(year: nat) {
    year % 4 == 0 && (year % 100 != 0 || year % 400 == 0)
  }

  function ParseDigits(bytes: string): nat
    requires AllDigits(bytes)
  {
    NumberOf(bytes)
  }

  predicate ValidDateText(raw: string) {
    && |raw| == 10 && raw[4] == '-' && raw[7] == '-'
    && (forall i | i in [0, 1, 2, 3, 5, 6, 8, 9] :: IsDigit(raw[i]))
    && AllDigits(raw[0..4]) && AllDigits(raw[5..7]) && AllDigits(raw[8..10])
    && var year, month, day := ParseDigits(raw[0..4]), ParseDigits(raw[5..7]), ParseDigits(raw[8..10]);
       day != 0 && day <= MaxDay(year, month)
  }

  function MaxDay(year: nat, month: nat): nat {
    if month in {1, 3, 5, 7, 8, 10, 12} then 31
    else if month in {4, 6, 9, 11} then 30
    else if month == 2 && IsLeapYear(year) then 29
    else if month == 2 then 28
    else 0
  }

  /** The month table of the guard is the calendar's, and no day fits a month that does not exist. */
  lemma SameMonths(year: nat, month: nat)
    ensures MaxDay(year, month) == if 1 <= month <= 12 then MonthLength(year, month) else 0
  {
  }

  function ValidateHeader(header: Option<string>): Result<(), TrustFailure> {
    if header.None? then Err(MissingVersionHeader)
    else if !ValidDateText(header.value) then Err(MalformedVersion(header.value))
    else if Less(header.value, HEADER_VALIDATION_SINCE) then Err(UnvalidatedRevision(header.value))
    else Ok(())
  }

  /** The day a string names, when it names a real calendar day. */
  predicate Names(raw: string, d: Date) {
    ValidDate(d) && d.year < 10000 && raw == DateText(d)
  }

  lemma ValidTextNames(raw: string)
    requires ValidDateText(raw)
    ensures Names(raw, Date(ParseDigits(raw[0..4]), ParseDigits(raw[5..7]), ParseDigits(raw[8..10])))
  {
    var d := Date(ParseDigits(raw[0..4]), ParseDigits(raw[5..7]), ParseDigits(raw[8..10]));
    SameMonths(d.year, d.month);
    ReadBack(raw, d);
  }

  lemma ReadBack(raw: string, d: Date)
    requires |raw| == 10 && raw[4] == raw[7] == '-' && AllDigits(raw[0..4]) && AllDigits(raw[5..7])
             && AllDigits(raw[8..10])
    requires d == Date(NumberOf(raw[0..4]), NumberOf(raw[5..7]), NumberOf(raw[8..10]))
    ensures d.year < 10000 && DateText(d) == raw
  {
    PadOfNumber(raw[0..4]);
    PadOfNumber(raw[5..7]);
    PadOfNumber(raw[8..10]);
    assert Pow10(4) == 10000;
    assert raw == raw[0..4] + ['-'] + (raw[5..7] + ['-'] + raw[8..10]);
  }

  lemma DigitsOfDateText(d: Date)
    requires d.year < 10000 && ValidDate(d)
    ensures var raw := DateText(d);
            |raw| == 10 && raw[4] == raw[7] == '-'
            && raw[0..4] == Pad(d.year, 4) && raw[5..7] == Pad(d.month, 2) && raw[8..10] == Pad(d.day, 2)
  {
  }

  lemma DigitPositions(raw: string)
    requires |raw| == 10 && AllDigits(raw[0..4]) && AllDigits(raw[5..7]) && AllDigits(raw[8..10])
    ensures forall i | i in [0, 1, 2, 3, 5, 6, 8, 9] :: IsDigit(raw[i])
  {
    forall i | i in [0, 1, 2, 3, 5, 6, 8, 9] ensures IsDigit(raw[i]) {
      assert raw[i] == if i < 4 then raw[0..4][i] else if i < 7 then raw[5..7][i - 5] else raw[8..10][i - 8];
    }
  }

  lemma NumbersOfDateText(d: Date)
    requires d.year < 10000 && ValidDate(d)
    ensures NumberOf(Pad(d.year, 4)) == d.year && NumberOf(Pad(d.month, 2)) == d.month
            && NumberOf(Pad(d.day, 2)) == d.day
  {
    assert Pow10(4) == 10000;
    MonthAndDayFit(d);
    NumberOfPad(d.year, 4);
    NumberOfPad(d.month, 2);
    NumberOfPad(d.day, 2);
  }

  lemma NamedTextIsValid(raw: string, d: Date)
    requires Names(raw, d)
    ensures ValidDateText(raw)
  {
    SameMonths(d.year, d.month);
    DigitsOfDateText(d);
    NumbersOfDateText(d);
    assert AllDigits(raw[0..4]) && AllDigits(raw[5..7]) && AllDigits(raw[8..10]);
    DigitPositions(raw);
  }

  lemma ValidTextNamesADate(raw: string)
    ensures ValidDateText(raw) <==> exists d :: Names(raw, d)
  {
    if ValidDateText(raw) {
      ValidTextNames(raw);
    }
    if d :| Names(raw, d) {
      NamedTextIsValid(raw, d);
    }
  }

  lemma OlderIsEarlier(raw: string, d: Date)
    requires Names(raw, d)
    ensures Less(raw, HEADER_VALIDATION_SINCE) <==> Earlier(d, Date(2026, 7, 28))
  {
    SinceText();
    DateTextOrder(d, Date(2026, 7, 28));
    DayNumberOrder(d, Date(2026, 7, 28));
  }

  /** Accepted: exactly the real calendar days not before 28 July 2026. Refused as too old: exactly the earlier ones. */
  lemma GuardIsChronological(raw: string)
    ensures ValidateHeader(None) == Err(MissingVersionHeader)
    ensures ValidateHeader(Some(raw)) == Err(MalformedVersion(raw)) <==> !exists d :: Names(raw, d)
    ensures ValidateHeader(Some(raw)).Ok? <==> exists d :: Names(raw, d) && !Earlier(d, Date(2026, 7, 28))
    ensures ValidateHeader(Some(raw)) == Err(UnvalidatedRevision(raw))
            <==> exists d :: Names(raw, d) && Earlier(d, Date(2026, 7, 28))
  {
    ValidTextNamesADate(raw);
    forall d | Names(raw, d) ensures Less(raw, HEADER_VALIDATION_SINCE) <==> Earlier(d, Date(2026, 7, 28)) {
      OlderIsEarlier(raw, d);
    }
  }

  lemma SinceText()
    ensures DateText(Date(2026, 7, 28)) == HEADER_VALIDATION_SINCE
  {
    YearOf2026();
    assert Pad(7, 2) == "07" && Pad(28, 2) == "28";
  }

  lemma YearOf2026()
    ensures Pad(2026, 4) == "2026"
  {
    assert Pad(202, 3) == Pad(20, 2) + "2" == "202";
  }

  /** Between any two accepted versions, byte order is chronological order. */
  lemma VersionsOrderByDay(a: string, d: Date, b: string, e: Date)
    requires Names(a, d) && Names(b, e)
    ensures Less(a, b) <==> DayNumber(d) < DayNumber(e)
    ensures a == b <==> DayNumber(d) == DayNumber(e)
  {
    DateTextOrder(d, e);
    DayNumberOrder(d, e);
  }
}
