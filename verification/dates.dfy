/** Calendar dates as the model sees them: plain year/month/day triples
    compared in calendar order. Text-to-date parsing is not modelled here;
    the handlers receive their parsers as function parameters. */
module Dates {

  datatype Date = Date(year: int, month: int, day: int)

  /** Calendar order: `a` is on or before `b`. */
  predicate OnOrBefore(a: Date, b: Date) {
    a.year < b.year
    || (a.year == b.year && a.month < b.month)
    || (a.year == b.year && a.month == b.month && a.day <= b.day)
  }

  predicate IsDigit(c: char) {
    '0' <= c <= '9'
  }

  /** Every text that `date.fromisoformat` accepts (YYYY-MM-DD, YYYYMMDD and
      the week-date forms) opens with a four-digit year. */
  predicate StartsWithYearDigits(s: string) {
    |s| >= 4 && IsDigit(s[0]) && IsDigit(s[1]) && IsDigit(s[2]) && IsDigit(s[3])
  }

  /** The literal that the repository's date-range query hands to
      `date.fromisoformat` instead of a real date. */
  const RangeQueryLiteral: string := "yyyy-mm-dd"

  lemma RangeQueryLiteralIsNoIsoDate()
    ensures !StartsWithYearDigits(RangeQueryLiteral)
  {
  }
}
