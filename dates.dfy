/**
 * Calendar dates and their text forms: `strftime('%Y-%m-%d')`, `strftime('%m/%Y')`, and a strict
 * `YYYY-MM-DD` reader that is one instance of the date parser the cleaning rules take.
 */
module Dates {
  import opened Common
  import opened Numerals

  datatype Date = Date(year: int, month: int, day: int)

  predicate IsLeapYear(y: int)
  {
    y % 4 == 0 && (y % 100 != 0 || y % 400 == 0)
  }

  function DaysInMonth(y: int, m: int): int
    requires 1 <= m <= 12
  {
    if m == 2 then (if IsLeapYear(y) then 29 else 28)
    else if m == 4 || m == 6 || m == 9 || m == 11 then 30
    else 31
  }

  /** A day of the proleptic Gregorian calendar with a four-digit year. */
  predicate ValidDate(d: Date)
  {
    1 <= d.year <= 9999 && 1 <= d.month <= 12 && 1 <= d.day <= DaysInMonth(d.year, d.month)
  }

  type CalendarDate = d: Date | ValidDate(d) witness Date(1970, 1, 1)

  /**
   * How a column of date text becomes dates (`pd.to_datetime(..., errors='coerce')`):
   * a date, or missing (NaT) when the text is not understood.
   */
  type DateParser = string -> Option<CalendarDate>

  /** `strftime('%Y-%m-%d')`. */
  function FormatIso(d: CalendarDate): (s: string)
    ensures |s| == 10 && s[4] == '-' && s[7] == '-'
  {
    PadDigits(d.year, 4) + "-" + PadDigits(d.month, 2) + "-" + PadDigits(d.day, 2)
  }

  /** Strict `YYYY-MM-DD`: four, two and two digits naming a real calendar day. */
  function ParseIso(s: string): Option<CalendarDate>
  {
    if |s| == 10 && s[4] == '-' && s[7] == '-'
       && AllDigits(s[..4]) && AllDigits(s[5..7]) && AllDigits(s[8..])
    then
      var d := Date(DigitsValue(s[..4]), DigitsValue(s[5..7]), DigitsValue(s[8..]));
      if ValidDate(d) then Some(d) else None
    else None
  }

  /** Reading back a formatted date gives the same date. */
  lemma ParseFormatIso(d: CalendarDate)
    ensures ParseIso(FormatIso(d)) == Some(d)
  {
    var s := FormatIso(d);
    assert s[..4] == PadDigits(d.year, 4);
    assert s[5..7] == PadDigits(d.month, 2);
    assert s[8..] == PadDigits(d.day, 2);
  }

  /** Every text the strict reader accepts is exactly the formatted form of its date. */
  lemma FormatParseIso(s: string)
    requires ParseIso(s).Some?
    ensures FormatIso(ParseIso(s).value) == s
  {
    PadDigitsOfValue(s[..4]);
    PadDigitsOfValue(s[5..7]);
    PadDigitsOfValue(s[8..]);
    assert s == s[..4] + "-" + s[5..7] + "-" + s[8..];
  }

  /** `strftime('%m/%Y')`: the month label the summary groups by. */
  function MonthKey(d: CalendarDate): (k: string)
    ensures |k| == 7 && k[2] == '/'
  {
    PadDigits(d.month, 2) + "/" + PadDigits(d.year, 4)
  }

  /** Two dates get the same month label exactly when they fall in the same month of the same year. */
  lemma MonthKeyIdentifiesMonth(d1: CalendarDate, d2: CalendarDate)
    ensures MonthKey(d1) == MonthKey(d2) <==> d1.year == d2.year && d1.month == d2.month
  {
    if MonthKey(d1) == MonthKey(d2) {
      var k1, k2 := MonthKey(d1), MonthKey(d2);
      assert k1[..2] == PadDigits(d1.month, 2) && k2[..2] == PadDigits(d2.month, 2);
      assert k1[3..] == PadDigits(d1.year, 4) && k2[3..] == PadDigits(d2.year, 4);
    }
  }
}
