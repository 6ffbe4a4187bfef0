/** Date-times as the trading-hours check compares them: Python `datetime`
values read with `strptime(text, "%Y%m%d:%H%M")` (the schedule bounds) or
supplied with seconds (the gateway's reference time), ordered field by field.
 */
module Timestamp {
  import opened Outcome
  import opened Text

  datatype DateTime = DateTime(year: int, month: int, day: int, hour: int, minute: int, second: int)

  predicate IsLeapYear(year: int) {
    year % 4 == 0 && (year % 100 != 0 || year % 400 == 0)
  }

  /** Days in a month of the proleptic Gregorian calendar `datetime` uses. */
  function DaysInMonth(year: int, month: int): int {
    if month == 2 then (if IsLeapYear(year) then 29 else 28)
    else if month == 4 || month == 6 || month == 9 || month == 11 then 30
    else 31
  }

  /** The values a `datetime` can hold (years 1 to 9999). */
  predicate Valid(d: DateTime) {
    && 1 <= d.year <= 9999
    && 1 <= d.month <= 12
    && 1 <= d.day <= DaysInMonth(d.year, d.month)
    && 0 <= d.hour <= 23
    && 0 <= d.minute <= 59
    && 0 <= d.second <= 59
  }

  /** `a <= b` on `datetime`: chronological, i.e. lexicographic on
      (year, month, day, hour, minute, second). */
  predicate NotAfter(a: DateTime, b: DateTime) {
    if a.year != b.year then a.year < b.year
    else if a.month != b.month then a.month < b.month
    else if a.day != b.day then a.day < b.day
    else if a.hour != b.hour then a.hour < b.hour
    else if a.minute != b.minute then a.minute < b.minute
    else a.second <= b.second
  }

  /** The length of a `%Y%m%d:%H%M` field written at full width. */
  const StampLength := 13

  /** `strptime(text, "%Y%m%d:%H%M")` on the fixed-width form: eight digits,
      a colon, four digits, naming an existing minute; seconds are zero. */
  function ParseStamp(text: string): (r: Result<DateTime>)
    ensures r.Ok? ==> Valid(r.value) && r.value.second == 0
    ensures r.Err? ==> r.error == BadTimestamp(text)
    ensures r.Ok? ==> |text| == StampLength && text[8] == ':'
  {
    if |text| != StampLength || text[8] != ':' then Err(BadTimestamp(text))
    else if !(AllDigits(text[0..4]) && AllDigits(text[4..6]) && AllDigits(text[6..8])
              && AllDigits(text[9..11]) && AllDigits(text[11..13])) then
      Err(BadTimestamp(text))
    else
      var d := DateTime(DigitsValue(text[0..4]), DigitsValue(text[4..6]), DigitsValue(text[6..8]),
                        DigitsValue(text[9..11]), DigitsValue(text[11..13]), 0);
      if Valid(d) then Ok(d) else Err(BadTimestamp(text))
  }

  /** `strftime(d, "%Y%m%d:%H%M")`, the format of the schedule bounds. */
  function FormatStamp(d: DateTime): string
    requires Valid(d)
  {
    PadDigits(d.year, 4) + PadDigits(d.month, 2) + PadDigits(d.day, 2) + ":"
    + PadDigits(d.hour, 2) + PadDigits(d.minute, 2)
  }

  /** Every valid whole-minute date-time is read back from its own text. */
  lemma ParseFormatStamp(d: DateTime)
    requires Valid(d) && d.second == 0
    ensures ParseStamp(FormatStamp(d)) == Ok(d)
  {
    FormatStampFields(d);
    FieldValues(d);
  }

  /** Where each field sits in the formatted text. */
  lemma FormatStampFields(d: DateTime)
    requires Valid(d)
    ensures |FormatStamp(d)| == StampLength && FormatStamp(d)[8] == ':'
    ensures FormatStamp(d)[0..4] == PadDigits(d.year, 4)
    ensures FormatStamp(d)[4..6] == PadDigits(d.month, 2)
    ensures FormatStamp(d)[6..8] == PadDigits(d.day, 2)
    ensures FormatStamp(d)[9..11] == PadDigits(d.hour, 2)
    ensures FormatStamp(d)[11..13] == PadDigits(d.minute, 2)
  {
  }

  /** Each field of a valid date-time fits its width, so it reads back. */
  lemma FieldValues(d: DateTime)
    requires Valid(d)
    ensures DigitsValue(PadDigits(d.year, 4)) == d.year
    ensures DigitsValue(PadDigits(d.month, 2)) == d.month
    ensures DigitsValue(PadDigits(d.day, 2)) == d.day
    ensures DigitsValue(PadDigits(d.hour, 2)) == d.hour
    ensures DigitsValue(PadDigits(d.minute, 2)) == d.minute
  {
    assert Pow10(2) == 100 && Pow10(4) == 10000 by {
      assert Pow10(1) == 10;
      assert Pow10(3) == 1000;
    }
    DigitsValuePad(d.year, 4);
    DigitsValuePad(d.month, 2);
    DigitsValuePad(d.day, 2);
    DigitsValuePad(d.hour, 2);
    DigitsValuePad(d.minute, 2);
  }

  /** Every text the parser accepts is the formatting of what it returns:
      no two accepted texts name the same minute. */
  lemma FormatParseStamp(text: string)
    requires ParseStamp(text).Ok?
    ensures FormatStamp(ParseStamp(text).value) == text
  {
    var d := ParseStamp(text).value;
    PadDigitsValue(text[0..4]);
    PadDigitsValue(text[4..6]);
    PadDigitsValue(text[6..8]);
    PadDigitsValue(text[9..11]);
    PadDigitsValue(text[11..13]);
    assert text == text[0..4] + text[4..6] + text[6..8] + [text[8]] + text[9..11] + text[11..13];
  }
}
