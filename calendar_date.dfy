/** ISO 8601 complete calendar dates in extended format (YYYY-MM-DD, section 4.1.2.2
    of ISO 8601:2004), the form in which a todo's completion date is entered and stored.
    Dates follow the proleptic Gregorian calendar, as JavaScript's Date does, and the
    four-digit form limits years to 0000..9999. */
module CalendarDate {
  import opened Optional

  datatype Date = Date(year: int, month: int, day: int)

  predicate IsLeapYear(y: int) {
    y % 4 == 0 && (y % 100 != 0 || y % 400 == 0)
  }

  function YearLength(y: int): int {
    if IsLeapYear(y) then 366 else 365
  }

  function DaysInMonth(y: int, m: int): (n: int)
    requires 1 <= m <= 12
    ensures 28 <= n <= 31
    ensures n == 29 <==> m == 2 && IsLeapYear(y)
  {
    if m == 2 then (if IsLeapYear(y) then 29 else 28)
    else if m == 4 || m == 6 || m == 9 || m == 11 then 30
    else 31
  }

  /** A date that the YYYY-MM-DD form can write and that names a real day. */
  predicate Valid(d: Date) {
    0 <= d.year <= 9999 && 1 <= d.month <= 12 && 1 <= d.day <= DaysInMonth(d.year, d.month)
  }

  type ValidDate = d: Date | Valid(d) witness Date(1970, 1, 1)

  /** Lexicographic (year, month, day) order: "a is an earlier day than b". */
  predicate Before(a: Date, b: Date) {
    a.year < b.year
    || (a.year == b.year && a.month < b.month)
    || (a.year == b.year && a.month == b.month && a.day < b.day)
  }

  /** Days of the year that precede the first of month m. */
  function DaysBeforeMonth(y: int, m: int): int
    requires 1 <= m <= 12
  {
    var common :=
      if m == 1 then 0 else if m == 2 then 31 else if m == 3 then 59
      else if m == 4 then 90 else if m == 5 then 120 else if m == 6 then 151
      else if m == 7 then 181 else if m == 8 then 212 else if m == 9 then 243
      else if m == 10 then 273 else if m == 11 then 304 else 334;
    if m > 2 && IsLeapYear(y) then common + 1 else common
  }

  /** Days from 0000-01-01 to the first of January of year y. */
  function DaysBeforeYear(y: nat): nat {
    if y == 0 then 0 else DaysBeforeYear(y - 1) + YearLength(y - 1)
  }

  /** The number of days from 0000-01-01 to d. A JavaScript Date built from the string
      form of d stands for UTC midnight of d, so its getTime() is
      (DayNumber(d) - DayNumber(1970-01-01)) * 86400000: an increasing affine
      function of DayNumber(d). */
  function DayNumber(d: ValidDate): (n: int)
    ensures DaysBeforeYear(d.year) <= n < DaysBeforeYear(d.year) + YearLength(d.year)
  {
    MonthFitsYear(d.year, d.month);
    DaysBeforeYear(d.year) + DaysBeforeMonth(d.year, d.month) + d.day - 1
  }

  /** date-fns compareAsc on two dates parsed from well-formed strings: the sign of
      the difference of their timestamps. It agrees with the calendar order. */
  function CompareAsc(a: ValidDate, b: ValidDate): (c: int)
    ensures c == -1 || c == 0 || c == 1
    ensures c == -1 <==> Before(a, b)
    ensures c == 0 <==> a == b
    ensures c == 1 <==> Before(b, a)
  {
    DayNumberOrder(a, b);
    DayNumberOrder(b, a);
    var diff := DayNumber(a) - DayNumber(b);
    if diff < 0 then -1 else if diff > 0 then 1 else 0
  }

  lemma MonthEnd(y: int, m: int)
    requires 1 <= m <= 12
    ensures m < 12 ==> DaysBeforeMonth(y, m) + DaysInMonth(y, m) == DaysBeforeMonth(y, m + 1)
    ensures m == 12 ==> DaysBeforeMonth(y, m) + DaysInMonth(y, m) == YearLength(y)
  {
  }

  lemma {:induction false} MonthsMonotone(y: int, m1: int, m2: int)
    requires 1 <= m1 < m2 <= 12
    ensures DaysBeforeMonth(y, m1) + DaysInMonth(y, m1) <= DaysBeforeMonth(y, m2)
    decreases m2 - m1
  {
    MonthEnd(y, m1);
    if m1 + 1 < m2 {
      MonthsMonotone(y, m1 + 1, m2);
    }
  }

  /** Month m ends no later than its year does. */
  lemma MonthFitsYear(y: int, m: int)
    requires 1 <= m <= 12
    ensures DaysBeforeMonth(y, m) + DaysInMonth(y, m) <= YearLength(y)
  {
    MonthEnd(y, 12);
    if m < 12 {
      MonthsMonotone(y, m, 12);
    }
  }

  /** Every day of year y1 comes before the first day of any later year. */
  lemma {:induction false} YearsMonotone(y1: nat, y2: nat)
    requires y1 < y2
    ensures DaysBeforeYear(y1) + YearLength(y1) <= DaysBeforeYear(y2)
    decreases y2
  {
    if y1 + 1 < y2 {
      YearsMonotone(y1, y2 - 1);
    }
  }

  /** The day number is strictly increasing in the calendar order. */
  lemma DayNumberOrder(a: ValidDate, b: ValidDate)
    ensures Before(a, b) ==> DayNumber(a) < DayNumber(b)
  {
    MonthEnd(a.year, a.month);
    if a.year < b.year {
      YearsMonotone(a.year, b.year);
    } else if a.year == b.year && a.month < b.month {
      MonthsMonotone(a.year, a.month, b.month);
    }
  }

  /** Two valid dates with the same timestamp are the same date. */
  lemma DayNumberInjective(a: ValidDate, b: ValidDate)
    ensures DayNumber(a) == DayNumber(b) <==> a == b
  {
    DayNumberOrder(a, b);
    DayNumberOrder(b, a);
  }

  // ---------------------------------------------------------------------------
  // The ten-character string form.

  function Digit(n: int): char
    requires 0 <= n <= 9
  {
    (48 + n) as char
  }

  predicate IsDigit(c: char) {
    '0' <= c <= '9'
  }

  function DigitValue(c: char): int
    requires IsDigit(c)
  {
    c as int - 48
  }

  function TwoDigits(n: int): string
    requires 0 <= n <= 99
  {
    [Digit(n / 10), Digit(n % 10)]
  }

  function FourDigits(n: int): string
    requires 0 <= n <= 9999
  {
    [Digit(n / 1000), Digit(n / 100 % 10), Digit(n / 10 % 10), Digit(n % 10)]
  }

  /** date-fns format(date, "yyyy-MM-dd"): zero-padded year, month and day joined by '-'. */
  function Format(d: ValidDate): (s: string)
    ensures |s| == 10 && s[4] == '-' && s[7] == '-'
    ensures forall i :: 0 <= i < 10 && i != 4 && i != 7 ==> IsDigit(s[i])
  {
    FourDigits(d.year) + "-" + TwoDigits(d.month) + "-" + TwoDigits(d.day)
  }

  predicate WellFormed(s: string) {
    |s| == 10 && s[4] == '-' && s[7] == '-'
    && forall i :: 0 <= i < 10 && i != 4 && i != 7 ==> IsDigit(s[i])
  }

  /** Reading a YYYY-MM-DD string back as a date; None for any string that is not the
      extended format of a real calendar day. */
  function Parse(s: string): (r: Option<ValidDate>)
    ensures r.Some? ==> WellFormed(s)
  {
    if !WellFormed(s) then None
    else
      var y := 1000 * DigitValue(s[0]) + 100 * DigitValue(s[1]) + 10 * DigitValue(s[2]) + DigitValue(s[3]);
      var m := 10 * DigitValue(s[5]) + DigitValue(s[6]);
      var d := 10 * DigitValue(s[8]) + DigitValue(s[9]);
      var date := Date(y, m, d);
      if Valid(date) then Some(date) else None
  }

  lemma DigitsRoundTrip(n: int)
    requires 0 <= n <= 9999
    ensures n == 1000 * (n / 1000) + 100 * (n / 100 % 10) + 10 * (n / 10 % 10) + n % 10
  {
  }

  /** Parsing the formatted string gives the date back. */
  lemma ParseFormat(d: ValidDate)
    ensures Parse(Format(d)) == Some(d)
  {
    var s := Format(d);
    DigitsRoundTrip(d.year);
    assert DigitValue(s[0]) == d.year / 1000;
    assert DigitValue(s[1]) == d.year / 100 % 10;
    assert DigitValue(s[2]) == d.year / 10 % 10;
    assert DigitValue(s[3]) == d.year % 10;
    assert DigitValue(s[5]) == d.month / 10 && DigitValue(s[6]) == d.month % 10;
    assert DigitValue(s[8]) == d.day / 10 && DigitValue(s[9]) == d.day % 10;
  }

  lemma DigitsOfFour(a: int, b: int, c: int, e: int)
    requires 0 <= a <= 9 && 0 <= b <= 9 && 0 <= c <= 9 && 0 <= e <= 9
    ensures var n := 1000 * a + 100 * b + 10 * c + e;
      n / 1000 == a && n / 100 % 10 == b && n / 10 % 10 == c && n % 10 == e
  {
    var n := 1000 * a + 100 * b + 10 * c + e;
    assert n / 1000 == a by {
      assert n == 1000 * a + (100 * b + 10 * c + e) && 0 <= 100 * b + 10 * c + e < 1000;
    }
    assert n / 100 == 10 * a + b by {
      assert n == 100 * (10 * a + b) + (10 * c + e) && 0 <= 10 * c + e < 100;
    }
    assert n / 10 == 100 * a + 10 * b + c by {
      assert n == 10 * (100 * a + 10 * b + c) + e;
    }
    assert (10 * a + b) % 10 == b;
    assert (100 * a + 10 * b + c) % 10 == c;
  }

  lemma DigitsOfTwo(a: int, b: int)
    requires 0 <= a <= 9 && 0 <= b <= 9
    ensures (10 * a + b) / 10 == a && (10 * a + b) % 10 == b
  {
  }

  /** Every string that parses is the formatted form of what it parses to: a date has
      exactly one string form. */
  lemma FormatParse(s: string)
    requires Parse(s).Some?
    ensures Format(Parse(s).value) == s
  {
    var d := Parse(s).value;
    DigitsOfFour(DigitValue(s[0]), DigitValue(s[1]), DigitValue(s[2]), DigitValue(s[3]));
    DigitsOfTwo(DigitValue(s[5]), DigitValue(s[6]));
    DigitsOfTwo(DigitValue(s[8]), DigitValue(s[9]));
    var t := Format(d);
    forall i | 0 <= i < 10
      ensures t[i] == s[i]
    {
      if i != 4 && i != 7 {
        assert Digit(DigitValue(s[i])) == s[i];
      }
    }
  }
}
