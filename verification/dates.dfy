/** The date check of the bot's last question: `datetime.strptime(text, "%d-%m-%Y")`
    on the stripped reply. The pattern admits a day of one or two digits (01-31 or
    1-9), a month of one or two digits (01-12 or 1-9), exactly four year digits,
    single hyphens between them and nothing after; the `datetime` constructor then
    rejects year 0 and days past the end of the month. */
module Dates {
  import opened Wrappers
  import opened Text

  datatype Date = Date(day: nat, month: nat, year: nat)

  /** The Gregorian leap-year rule, as `datetime` applies it. */
  predicate IsLeapYear(year: nat) {
    year % 4 == 0 && (year % 100 != 0 || year % 400 == 0)
  }

  function DaysInMonth(month: nat, year: nat): (n: nat)
    requires 1 <= month <= 12
    ensures 28 <= n <= 31
    ensures n == 29 <==> month == 2 && IsLeapYear(year)
    ensures n == 31 <==> month in {1, 3, 5, 7, 8, 10, 12}
    ensures n == 30 <==> month in {4, 6, 9, 11}
  {
    if month == 2 then (if IsLeapYear(year) then 29 else 28)
    else if month in {4, 6, 9, 11} then 30
    else 31
  }

  /** The days of the first `months` months of `year`. */
  function DaysThrough(months: nat, year: nat): nat
    requires months <= 12
  {
    if months == 0 then 0 else DaysThrough(months - 1, year) + DaysInMonth(months, year)
  }

  /** The month lengths add up to the length of the year: 366 days exactly in
      leap years, 365 otherwise. */
  lemma YearLength(year: nat)
    ensures DaysThrough(12, year) == if IsLeapYear(year) then 366 else 365
  {
    var feb := if IsLeapYear(year) then 29 else 28;
    assert DaysThrough(1, year) == 31;
    assert DaysThrough(2, year) == 31 + feb;
    assert DaysThrough(3, year) == 62 + feb;
    assert DaysThrough(4, year) == 92 + feb;
    assert DaysThrough(5, year) == 123 + feb;
    assert DaysThrough(6, year) == 153 + feb;
    assert DaysThrough(7, year) == 184 + feb;
    assert DaysThrough(8, year) == 215 + feb;
    assert DaysThrough(9, year) == 245 + feb;
    assert DaysThrough(10, year) == 276 + feb;
    assert DaysThrough(11, year) == 306 + feb;
  }

  /** A date `datetime` can represent (years 1..9999). */
  predicate IsCalendarDate(d: Date) {
    && 1 <= d.year <= 9999
    && 1 <= d.month <= 12
    && 1 <= d.day <= DaysInMonth(d.month, d.year)
  }

  /** Width of the day or month field starting at `i`. The field is followed by a
      hyphen and digits never are, so the field is one character wide exactly when
      a hyphen stands right after its first character. */
  function FieldWidth(s: string, i: nat): (w: nat)
    ensures 1 <= w <= 2
  {
    if i + 1 < |s| && s[i + 1] == '-' then 1 else 2
  }

  /** The `w` characters at `i`, for `w` of one or two, are digits. */
  predicate DigitsAt(s: string, i: nat, w: nat)
    requires 1 <= w <= 2 && i + w <= |s|
  {
    IsDigit(s[i]) && (w == 1 || IsDigit(s[i + 1]))
  }

  /** The value of the one- or two-digit field at `i`. */
  function FieldValue(s: string, i: nat, w: nat): nat
    requires 1 <= w <= 2 && i + w <= |s| && DigitsAt(s, i, w)
  {
    if w == 1 then DigitValue(s[i]) else 10 * DigitValue(s[i]) + DigitValue(s[i + 1])
  }

  /** The four characters at `i` are digits. */
  predicate YearDigitsAt(s: string, i: nat)
    requires i + 4 <= |s|
  {
    IsDigit(s[i]) && IsDigit(s[i + 1]) && IsDigit(s[i + 2]) && IsDigit(s[i + 3])
  }

  /** The value of the four-digit year at `i`. */
  function YearValue(s: string, i: nat): nat
    requires i + 4 <= |s| && YearDigitsAt(s, i)
  {
    1000 * DigitValue(s[i]) + 100 * DigitValue(s[i + 1]) + 10 * DigitValue(s[i + 2]) + DigitValue(s[i + 3])
  }

  /** The reading `strptime` makes of the text, or None where it raises ValueError.
      The text is read left to right: a day of one or two digits and a hyphen, a
      month of one or two digits and a hyphen, four year digits, and nothing else. */
  function ParseDate(s: string): (r: Option<Date>)
    ensures r.Some? ==> IsCalendarDate(r.value)
  {
    var dl := FieldWidth(s, 0);
    var m := dl + 1;
    if !(m < |s| && s[dl] == '-' && DigitsAt(s, 0, dl)) then None
    else
      var ml := FieldWidth(s, m);
      var y := m + ml + 1;
      if !(|s| == y + 4 && s[m + ml] == '-' && DigitsAt(s, m, ml) && YearDigitsAt(s, y)) then None
      else
        var d := Date(FieldValue(s, 0, dl), FieldValue(s, m, ml), YearValue(s, y));
        if IsCalendarDate(d) then Some(d) else None
  }

  /** `s` is a `dl`-digit day, a hyphen, an `ml`-digit month, a hyphen and four
      year digits, with nothing else. */
  predicate HasShape(s: string, dl: nat, ml: nat) {
    && |s| == dl + ml + 6
    && AllDigits(s[..dl])
    && s[dl] == '-'
    && AllDigits(s[dl + 1..dl + 1 + ml])
    && s[dl + 1 + ml] == '-'
    && AllDigits(s[dl + ml + 2..])
  }

  function ShapeFields(s: string, dl: nat, ml: nat): Date
    requires HasShape(s, dl, ml)
  {
    Date(DigitsValue(s[..dl]), DigitsValue(s[dl + 1..dl + 1 + ml]), DigitsValue(s[dl + ml + 2..]))
  }

  /** The pattern `%d-%m-%Y` matches `s` and reads its fields as `d`: one of the four
      combinations of a one- or two-digit day with a one- or two-digit month. */
  predicate ReadsAs(s: string, d: Date) {
    || (HasShape(s, 1, 1) && ShapeFields(s, 1, 1) == d)
    || (HasShape(s, 1, 2) && ShapeFields(s, 1, 2) == d)
    || (HasShape(s, 2, 1) && ShapeFields(s, 2, 1) == d)
    || (HasShape(s, 2, 2) && ShapeFields(s, 2, 2) == d)
  }

  /** A field read by position has the value `int()` gives its characters. */
  lemma FieldValueIsDigitsValue(s: string, i: nat, w: nat)
    requires 1 <= w <= 2 && i + w <= |s| && DigitsAt(s, i, w)
    ensures AllDigits(s[i..i + w]) && DigitsValue(s[i..i + w]) == FieldValue(s, i, w)
  {
    var t := s[i..i + w];
    assert t[..|t| - 1][..0] == [];
    if w == 2 {
      TwoDigitsValue(t);
    }
  }

  /** The same for the four-digit year. */
  lemma YearValueIsDigitsValue(s: string, i: nat)
    requires i + 4 <= |s| && YearDigitsAt(s, i)
    ensures AllDigits(s[i..i + 4]) && DigitsValue(s[i..i + 4]) == YearValue(s, i)
  {
    FourDigitsValue(s[i..i + 4]);
  }

  /** Whatever the reading accepts has one of the four shapes the pattern admits. */
  lemma ParsedHasShape(s: string, d: Date)
    requires ParseDate(s) == Some(d)
    ensures ReadsAs(s, d)
  {
    var dl := FieldWidth(s, 0);
    var ml := FieldWidth(s, dl + 1);
    FieldValueIsDigitsValue(s, 0, dl);
    FieldValueIsDigitsValue(s, dl + 1, ml);
    YearValueIsDigitsValue(s, dl + ml + 2);
    assert s[..dl] == s[0..dl];
    assert s[dl + ml + 2..] == s[dl + ml + 2..dl + ml + 6];
    assert HasShape(s, dl, ml);
    assert ShapeFields(s, dl, ml) == d;
  }

  /** A one- or two-digit field followed by a hyphen is read with its own width
      and value. */
  lemma FieldOfShape(s: string, i: nat, w: nat)
    requires 1 <= w <= 2 && i + w < |s|
    requires AllDigits(s[i..i + w]) && s[i + w] == '-'
    ensures FieldWidth(s, i) == w && DigitsAt(s, i, w)
    ensures DigitsValue(s[i..i + w]) == FieldValue(s, i, w)
  {
    assert s[i..i + w][0] == s[i];
    if w == 2 {
      assert s[i..i + w][1] == s[i + 1];
    }
    FieldValueIsDigitsValue(s, i, w);
  }

  /** Four digits at the end are read as the year. */
  lemma YearOfShape(s: string, y: nat)
    requires y + 4 == |s| && AllDigits(s[y..])
    ensures YearDigitsAt(s, y) && DigitsValue(s[y..]) == YearValue(s, y)
  {
    var t := s[y..];
    assert t[0] == s[y] && t[1] == s[y + 1] && t[2] == s[y + 2] && t[3] == s[y + 3];
    assert t == s[y..y + 4];
    YearValueIsDigitsValue(s, y);
  }

  /** Whatever shape the pattern admits, the reading finds it. */
  lemma ShapeIsParsed(s: string, dl: nat, ml: nat)
    requires 1 <= dl <= 2 && 1 <= ml <= 2
    requires HasShape(s, dl, ml)
    ensures ParseDate(s) == (if IsCalendarDate(ShapeFields(s, dl, ml)) then Some(ShapeFields(s, dl, ml)) else None)
  {
    assert s[..dl] == s[0..dl];
    FieldOfShape(s, 0, dl);
    FieldOfShape(s, dl + 1, ml);
    YearOfShape(s, dl + ml + 2);
  }

  /** The reading accepts exactly what `strptime` accepts, and reads the same date:
      the pattern matches with some day and month width, and the fields form a
      real calendar date. */
  lemma ParseDateIsStrptime(s: string, d: Date)
    ensures ParseDate(s) == Some(d) <==> ReadsAs(s, d) && IsCalendarDate(d)
  {
    if ParseDate(s) == Some(d) {
      ParsedHasShape(s, d);
    }
    if ReadsAs(s, d) && IsCalendarDate(d) {
      if HasShape(s, 1, 1) && ShapeFields(s, 1, 1) == d {
        ShapeIsParsed(s, 1, 1);
      } else if HasShape(s, 1, 2) && ShapeFields(s, 1, 2) == d {
        ShapeIsParsed(s, 1, 2);
      } else if HasShape(s, 2, 1) && ShapeFields(s, 2, 1) == d {
        ShapeIsParsed(s, 2, 1);
      } else {
        ShapeIsParsed(s, 2, 2);
      }
    }
  }

  /** The zero-padded `DD-MM-YYYY` spelling of a date with a four-digit year. */
  function Canonical(d: Date): (s: string)
    requires IsCalendarDate(d) && d.year >= 1000
    ensures |s| == 10
  {
    DecimalFourDigits(d.year);
    PadTwo(d.day) + "-" + PadTwo(d.month) + "-" + Decimal(d.year)
  }

  /** Every calendar date with a four-digit year is accepted in its canonical
      spelling and read back unchanged. */
  lemma CanonicalIsAccepted(d: Date)
    requires IsCalendarDate(d) && d.year >= 1000
    ensures ParseDate(Canonical(d)) == Some(d)
  {
    var s := Canonical(d);
    DecimalFourDigits(d.year);
    assert s[..2] == PadTwo(d.day);
    assert s[3..5] == PadTwo(d.month);
    assert s[6..] == Decimal(d.year);
    assert HasShape(s, 2, 2);
    assert ShapeFields(s, 2, 2) == d;
    ShapeIsParsed(s, 2, 2);
  }

  /** A two-digit day and month with a four-digit year, read field by field. */
  lemma ReadsTwoTwo(s: string)
    requires HasShape(s, 2, 2)
    ensures ShapeFields(s, 2, 2) == Date(
      10 * DigitValue(s[0]) + DigitValue(s[1]),
      10 * DigitValue(s[3]) + DigitValue(s[4]),
      1000 * DigitValue(s[6]) + 100 * DigitValue(s[7]) + 10 * DigitValue(s[8]) + DigitValue(s[9]))
  {
    TwoDigitsValue(s[..2]);
    TwoDigitsValue(s[3..5]);
    FourDigitsValue(s[6..]);
  }

  /** The example the bot's prompt shows is accepted. */
  lemma PromptExampleAccepted()
    ensures ParseDate("15-01-2026") == Some(Date(15, 1, 2026))
  {
  }

  /** Day and month may drop their leading zero: `1-1-2026` reads as the same date
      as `01-01-2026`. */
  lemma UnpaddedAccepted()
    ensures ParseDate("1-1-2026") == Some(Date(1, 1, 2026))
  {
  }

  /** The zero-padded spelling of the same date reads the same. */
  lemma PaddedAccepted()
    ensures ParseDate("01-01-2026") == Some(Date(1, 1, 2026))
  {
  }

  /** 29 February exists in a year divisible by four. */
  lemma LeapDayAccepted()
    ensures ParseDate("29-02-2024") == Some(Date(29, 2, 2024))
  {
  }

  /** 29 February exists in a century year divisible by 400. */
  lemma LeapCenturyAccepted()
    ensures ParseDate("29-02-2000") == Some(Date(29, 2, 2000))
  {
  }

  /** 29 February does not exist in other century years. */
  lemma CenturyNotLeap()
    ensures ParseDate("29-02-1900") == None
  {
  }

  /** 29 February does not exist in a year not divisible by four. */
  lemma CommonYearRejected()
    ensures ParseDate("29-02-2026") == None
  {
  }

  /** A day past the end of February fits the pattern but is not a date. */
  lemma FebruaryOverflowRejected()
    ensures ParseDate("31-02-2026") == None
  {
  }

  /** A 31st in a thirty-day month is not a date. */
  lemma ThirtyDayMonthRejected()
    ensures ParseDate("31-04-2026") == None
  {
  }

  /** Year 0 fits the pattern but `datetime` refuses it. */
  lemma YearZeroRejected()
    ensures ParseDate("01-01-0000") == None
  {
  }

  /** Texts outside the pattern are refused: a two-digit year, another separator,
      trailing characters, a three-digit day. */
  lemma MalformedRejected()
    ensures ParseDate("15-01-26") == None
    ensures ParseDate("15/01/2026") == None
    ensures ParseDate("15-01-2026x") == None
    ensures ParseDate("015-01-2026") == None
  {
  }
}
