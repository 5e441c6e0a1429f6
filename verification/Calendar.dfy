/** The proleptic Gregorian calendar, as `time.Date` and the accessors of `time.Time` see it. */
module Calendar {

  datatype Date = Date(year: int, month: int, day: int)

  predicate IsLeap(y: int) {
    y % 4 == 0 && (y % 100 != 0 || y % 400 == 0)
  }

  function DaysInMonth(y: int, m: int): int
  {
    if m == 2 then (if IsLeap(y) then 29 else 28)
    else if m == 4 || m == 6 || m == 9 || m == 11 then 30
    else 31
  }

  predicate IsReal(d: Date) {
    1 <= d.month <= 12 && 1 <= d.day <= DaysInMonth(d.year, d.month)
  }

  /** Days from 0001-01-01 to the first day of the given year (of any sign). */
  function DaysBeforeYear(y: int): int {
    var p := y - 1;
    365 * p + p / 4 - p / 100 + p / 400
  }

  function DaysBeforeMonth(y: int, m: int): int
    requires 1 <= m <= 12
  {
    (if m > 2 && IsLeap(y) then 1 else 0) +
    if m == 1 then 0 else if m == 2 then 31 else if m == 3 then 59
    else if m == 4 then 90 else if m == 5 then 120 else if m == 6 then 151
    else if m == 7 then 181 else if m == 8 then 212 else if m == 9 then 243
    else if m == 10 then 273 else if m == 11 then 304 else 334
  }

  /** The day number of a year, month and day, normalising an overflowing month
      and an overflowing day like `time.Date` does. */
  function DayNumber(y: int, m: int, d: int): int {
    var y' := y + (m - 1) / 12;
    DaysBeforeYear(y') + DaysBeforeMonth(y', (m - 1) % 12 + 1) + d - 1
  }

  /** The year of a day number, found through whole 400-, 100-, 4- and 1-year cycles. */
  function YearOf(n: int): int {
    var r400 := n % 146097;
    var c := if r400 / 36524 == 4 then 3 else r400 / 36524;
    var r100 := r400 - 36524 * c;
    var r4 := r100 % 1461;
    var a := if r4 / 365 == 4 then 3 else r4 / 365;
    400 * (n / 146097) + 100 * c + 4 * (r100 / 1461) + a + 1
  }

  function MonthOfYearDay(y: int, yday: int): (m: int)
    requires 0 <= yday < 366
    ensures 1 <= m <= 12
  {
    var leap := if IsLeap(y) then 1 else 0;
    if yday < 31 then 1 else if yday < 59 + leap then 2 else if yday < 90 + leap then 3
    else if yday < 120 + leap then 4 else if yday < 151 + leap then 5 else if yday < 181 + leap then 6
    else if yday < 212 + leap then 7 else if yday < 243 + leap then 8 else if yday < 273 + leap then 9
    else if yday < 304 + leap then 10 else if yday < 334 + leap then 11 else 12
  }

  function YearLength(y: int): int {
    if IsLeap(y) then 366 else 365
  }

  lemma Divides(x: int, k: int, q: int)
    requires k == 4 || k == 100 || k == 400
    requires k * q <= x < k * q + k
    ensures x / k == q && x % k == x - k * q
  {}

  /** A year in terms of its place within a 400-, 100- and 4-year cycle. */
  lemma YearInCycles(q: int, c: int, b: int, a: int)
    requires 0 <= c <= 3 && 0 <= b <= 24 && 0 <= a <= 3
    ensures var p := 400 * q + 100 * c + 4 * b + a;
            && DaysBeforeYear(p + 1) == 146097 * q + 36524 * c + 1461 * b + 365 * a
            && IsLeap(p + 1) == (a == 3 && (b != 24 || c == 3))
  {
    var p := 400 * q + 100 * c + 4 * b + a;
    Divides(p, 400, q);
    Divides(p, 100, 4 * q + c);
    Divides(p, 4, 100 * q + 25 * c + b);
    var y := p + 1;
    Divides(y, 4, if a == 3 then 100 * q + 25 * c + b + 1 else 100 * q + 25 * c + b);
    Divides(y, 100, if b == 24 && a == 3 then 4 * q + c + 1 else 4 * q + c);
    Divides(y, 400, if c == 3 && b == 24 && a == 3 then q + 1 else q);
  }

  lemma CyclesOf(p: int) returns (q: int, c: int, b: int, a: int)
    ensures 0 <= c <= 3 && 0 <= b <= 24 && 0 <= a <= 3
    ensures p == 400 * q + 100 * c + 4 * b + a
  {
    var r, s;
    q, r := p / 400, p % 400;
    c, s := r / 100, r % 100;
    b, a := s / 4, s % 4;
  }

  lemma YearsAreAdjacent(y: int)
    ensures DaysBeforeYear(y + 1) == DaysBeforeYear(y) + YearLength(y)
  {
    var q, c, b, a := CyclesOf(y - 1);
    YearInCycles(q, c, b, a);
    if a < 3 {
      YearInCycles(q, c, b, a + 1);
    } else if b < 24 {
      YearInCycles(q, c, b + 1, 0);
    } else if c < 3 {
      YearInCycles(q, c + 1, 0, 0);
    } else {
      YearInCycles(q + 1, 0, 0, 0);
    }
  }

  lemma YearOfIsRight(n: int)
    ensures DaysBeforeYear(YearOf(n)) <= n < DaysBeforeYear(YearOf(n) + 1)
  {
    var q, r400 := n / 146097, n % 146097;
    var c := if r400 / 36524 == 4 then 3 else r400 / 36524;
    var r100 := r400 - 36524 * c;
    var b, r4 := r100 / 1461, r100 % 1461;
    var a := if r4 / 365 == 4 then 3 else r4 / 365;
    YearInCycles(q, c, b, a);
    YearsAreAdjacent(YearOf(n));
  }

  lemma YearsIncrease(y: int, z: int)
    requires y <= z
    ensures DaysBeforeYear(z) >= DaysBeforeYear(y) + 365 * (z - y)
    decreases z - y
  {
    hide DaysBeforeYear, IsLeap;
    if y < z {
      YearsIncrease(y, z - 1);
      YearsAreAdjacent(z - 1);
    }
  }

  /** The real date of a day number. */
  function DateOf(n: int): (d: Date)
  {
    var y := YearOf(n);
    YearOfIsRight(n);
    YearsAreAdjacent(y);
    var yday := n - DaysBeforeYear(y);
    var m := MonthOfYearDay(y, yday);
    Date(y, m, yday - DaysBeforeMonth(y, m) + 1)
  }

  /** Day numbers and real dates are in one-to-one correspondence: this is one direction... */
  lemma DateOfIsReal(n: int)
    ensures IsReal(DateOf(n))
    ensures DayNumber(DateOf(n).year, DateOf(n).month, DateOf(n).day) == n
  {
    hide DaysBeforeYear, IsLeap, YearOf;
    var y := YearOf(n);
    YearOfIsRight(n);
    YearsAreAdjacent(y);
  }

  lemma DayNumberOfReal(d: Date)
    requires IsReal(d)
    ensures DayNumber(d.year, d.month, d.day) ==
            DaysBeforeYear(d.year) + DaysBeforeMonth(d.year, d.month) + d.day - 1
    ensures 0 <= DaysBeforeMonth(d.year, d.month) + d.day - 1 < YearLength(d.year)
    ensures MonthOfYearDay(d.year, DaysBeforeMonth(d.year, d.month) + d.day - 1) == d.month
  {
    hide DaysBeforeYear, IsLeap;
    assert (d.month - 1) / 12 == 0 && (d.month - 1) % 12 == d.month - 1;
  }

  lemma StartOfNextMonth(y: int, m: int)
    requires 1 <= m <= 12
    ensures DayNumber(y, m + 1, 1) == DaysBeforeYear(y) + DaysBeforeMonth(y, m) + DaysInMonth(y, m)
  {
    hide DaysBeforeYear, IsLeap;
    if m == 12 {
      assert m / 12 == 1 && m % 12 == 0;
      YearsAreAdjacent(y);
    } else {
      DayNumberOfReal(Date(y, m + 1, 1));
    }
  }

  lemma YearIsUnique(y: int, z: int, n: int)
    requires DaysBeforeYear(y) <= n < DaysBeforeYear(y + 1)
    requires DaysBeforeYear(z) <= n < DaysBeforeYear(z + 1)
    ensures y == z
  {
    hide DaysBeforeYear;
    if y < z {
      YearsIncrease(y + 1, z);
    } else if z < y {
      YearsIncrease(z + 1, y);
    }
  }

  /** ...and this is the other one. */
  lemma DateOfDayNumber(d: Date)
    requires IsReal(d)
    ensures DateOf(DayNumber(d.year, d.month, d.day)) == d
  {
    hide DaysBeforeYear, IsLeap, YearOf;
    var n := DayNumber(d.year, d.month, d.day);
    DayNumberOfReal(d);
    YearsAreAdjacent(d.year);
    YearOfIsRight(n);
    YearIsUnique(d.year, YearOf(n), n);
  }

  /** 0 is Sunday, and 0001-01-01 was a Monday. */
  function Weekday(n: int): (w: int)
    ensures 0 <= w < 7
  {
    (n + 1) % 7
  }

  /** The days of the week follow each other, and 1970-01-01 was a Thursday. */
  lemma WeekdaysFollow(n: int)
    ensures Weekday(n + 1) == if Weekday(n) == 6 then 0 else Weekday(n) + 1
    ensures Weekday(DayNumber(1970, 1, 1)) == 4
  {
    KnownDays();
    hide DayNumber;
    NextRemainder(n + 1);
  }

  lemma NextRemainder(n: int)
    ensures (n + 1) % 7 == if n % 7 == 6 then 0 else n % 7 + 1
  {}

  /** The first day, the beginning of Unix time, and a leap day in a century year that has one. */
  lemma KnownDays()
    ensures DayNumber(1, 1, 1) == 0 && DayNumber(1970, 1, 1) == 719162
    ensures DayNumber(2000, 3, 1) == DayNumber(2000, 2, 28) + 2
    ensures DayNumber(1900, 3, 1) == DayNumber(1900, 2, 28) + 1
  {}

  lemma KnownMonths(y: int, m: int)
    requires 1 <= m <= 12
    ensures DaysInMonth(y, m) == [31, if IsLeap(y) then 29 else 28, 31, 30, 31, 30, 31, 31, 30, 31, 30, 31][m - 1]
  {}
}
