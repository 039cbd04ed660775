/** The Gregorian calendar, days counted from 1970-01-01. */
module Calendar {

  predicate Leap(y: int) {
    y % 4 == 0 && (y % 100 != 0 || y % 400 == 0)
  }

  function DaysIn(y: int, m: int): (d: int)
    requires 1 <= m <= 12
    ensures 28 <= d <= 31
  {
    if m == 2 then if Leap(y) then 29 else 28
    else if m == 4 || m == 6 || m == 9 || m == 11 then 30
    else 31
  }

  /** How many leap years there are from year 0 up to y. */
  function Leaps(y: int): int {
    (y + 3) / 4 - (y + 99) / 100 + (y + 399) / 400
  }

  function YearStart(y: int): int {
    365 * (y - 1970) + Leaps(y) - Leaps(1970)
  }

  /** The days of a year before its m-th month. */
  function DaysBefore(y: int, m: int): int
    requires 1 <= m <= 13
  {
    if m == 1 then 0 else DaysBefore(y, m - 1) + DaysIn(y, m - 1)
  }

  /** The day number of a date; the day may run past its month, and the thirteenth month
      is the next year's first. */
  function DayNumber(y: int, m: int, d: int): int
    requires 1 <= m <= 13
  {
    YearStart(y) + DaysBefore(y, m) + d - 1
  }

  lemma Step4(y: int)
    ensures (y + 4) / 4 - (y + 3) / 4 == if y % 4 == 0 then 1 else 0
  {
  }

  lemma Step100(y: int)
    ensures (y + 100) / 100 - (y + 99) / 100 == if y % 100 == 0 then 1 else 0
  {
  }

  lemma Step400(y: int)
    ensures (y + 400) / 400 - (y + 399) / 400 == if y % 400 == 0 then 1 else 0
  {
  }

  lemma Divides400(y: int)
    requires y % 400 == 0
    ensures y % 100 == 0
  {
    var k := y / 400;
    assert y == 100 * (4 * k) + 0;
  }

  lemma Divides100(y: int)
    requires y % 100 == 0
    ensures y % 4 == 0
  {
    var k := y / 100;
    assert y == 4 * (25 * k) + 0;
  }

  lemma LeapsStep(y: int)
    ensures Leaps(y + 1) - Leaps(y) == if Leap(y) then 1 else 0
  {
    Step4(y);
    Step100(y);
    Step400(y);
    if y % 400 == 0 {
      Divides400(y);
    }
    if y % 100 == 0 {
      Divides100(y);
    }
  }

  lemma WholeYear(y: int)
    ensures DaysBefore(y, 13) == 365 + if Leap(y) then 1 else 0
    ensures YearStart(y) + DaysBefore(y, 13) == YearStart(y + 1)
  {
    LeapsStep(y);
    assert DaysBefore(y, 2) == 31;
    assert DaysBefore(y, 3) == 31 + DaysIn(y, 2);
    assert DaysBefore(y, 5) == DaysBefore(y, 3) + 61;
    assert DaysBefore(y, 7) == DaysBefore(y, 5) + 61;
    assert DaysBefore(y, 9) == DaysBefore(y, 7) + 62;
    assert DaysBefore(y, 11) == DaysBefore(y, 9) + 61;
    assert DaysBefore(y, 13) == DaysBefore(y, 11) + 61;
  }

  // ---------------------------------------------------------------- from a day number to its date

  /** A first guess by the length of 400 years is at most one off. */
  function YearOf(n: int): (y: int)
    ensures YearStart(y) <= n < YearStart(y + 1)
  {
    var guess := 1970 + 400 * n / 146097;
    GuessIsClose(n);
    if n < YearStart(guess) then guess - 1
    else if n >= YearStart(guess + 1) then guess + 1
    else guess
  }

  lemma GuessIsClose(n: int)
    ensures var y := 1970 + 400 * n / 146097; YearStart(y - 1) <= n < YearStart(y + 2)
  {
    var q := 400 * n / 146097;
    assert 146097 * q <= 400 * n < 146097 * q + 146097;
    LeapsNearly(1970 + q - 1);
    LeapsNearly(1970 + q + 2);
  }

  lemma LeapsNearly(y: int)
    ensures 97 * y - 400 <= 400 * Leaps(y) <= 97 * y + 700
  {
    var a, b, c := (y + 3) / 4, (y + 99) / 100, (y + 399) / 400;
    assert y <= 4 * a <= y + 3 && y <= 100 * b <= y + 99 && y <= 400 * c <= y + 399;
  }

  /** The last month, from the m-th back, to begin by that day of the year. */
  function MonthFrom(y: int, day: int, m: int): (r: int)
    requires 1 <= m <= 12 && 0 <= day < DaysBefore(y, m + 1)
    ensures 1 <= r <= 12 && DaysBefore(y, r) <= day < DaysBefore(y, r + 1)
  {
    if DaysBefore(y, m) <= day then m else MonthFrom(y, day, m - 1)
  }

  datatype Date = Date(year: int, month: int, day: int) {
    predicate Valid() {
      1 <= month <= 12 && 1 <= day <= DaysIn(year, month)
    }
  }

  function DateOf(n: int): (d: Date)
    ensures d.Valid() && DayNumber(d.year, d.month, d.day) == n
  {
    var y := YearOf(n);
    WholeYear(y);
    var m := MonthFrom(y, n - YearStart(y), 12);
    Date(y, m, n - YearStart(y) - DaysBefore(y, m) + 1)
  }

  // ---------------------------------------------------------------- months in a row

  /** When a month starts, counted on through the years. */
  function MonthStart(index: int): int {
    DayNumber(index / 12, index % 12 + 1, 1)
  }

  lemma MonthStep(index: int)
    ensures MonthStart(index + 1) == MonthStart(index) + DaysIn(index / 12, index % 12 + 1)
  {
    if index % 12 == 11 {
      WholeYear(index / 12);
      assert (index + 1) / 12 == index / 12 + 1 && (index + 1) % 12 == 0;
    } else {
      assert (index + 1) / 12 == index / 12 && (index + 1) % 12 == index % 12 + 1;
    }
  }

  lemma {:induction false} MonthsGrow(a: int, b: int)
    requires a <= b
    ensures MonthStart(a) <= MonthStart(b) && (a < b ==> MonthStart(a) < MonthStart(b))
    decreases b - a
  {
    if a < b {
      MonthsGrow(a, b - 1);
      MonthStep(b - 1);
    }
  }

  function MonthIndex(d: Date): int {
    12 * d.year + d.month - 1
  }

  lemma MonthOfDate(n: int)
    ensures var d := DateOf(n);
            && MonthStart(MonthIndex(d)) == DayNumber(d.year, d.month, 1)
            && MonthStart(MonthIndex(d) + 1) == DayNumber(d.year, d.month + 1, 1)
            && MonthStart(MonthIndex(d)) <= n < MonthStart(MonthIndex(d) + 1)
  {
    var d := DateOf(n);
    var i := MonthIndex(d);
    assert i / 12 == d.year && i % 12 == d.month - 1;
    MonthStep(i);
  }

  /** Every day of a month has that month's index, and no other day has. */
  lemma MonthIsUnique(n: int, index: int)
    requires MonthStart(index) <= n < MonthStart(index + 1)
    ensures MonthIndex(DateOf(n)) == index
  {
    MonthOfDate(n);
    hide *;
    var i := MonthIndex(DateOf(n));
    if i < index {
      MonthsGrow(i + 1, index);
    } else if i > index {
      MonthsGrow(index + 1, i);
    }
  }

  /** The months against the list of their lengths. */
  lemma KnownMonths(y: int, m: int)
    requires 1 <= m <= 12
    ensures var february := if y % 4 != 0 then 28 else if y % 100 != 0 then 29 else if y % 400 != 0 then 28 else 29;
            DayNumber(y, m + 1, 1) - DayNumber(y, m, 1)
            == [31, february, 31, 30, 31, 30, 31, 31, 30, 31, 30, 31][m - 1]
  {
  }

  /** The count against known days: a century leap year, a common one and a leap day. */
  lemma KnownDays()
    ensures DayNumber(1970, 1, 1) == 0
    ensures DayNumber(2000, 3, 1) == DayNumber(2000, 2, 29) + 1 == 11017
    ensures DayNumber(1900, 3, 1) == DayNumber(1900, 2, 28) + 1 == -25508
    ensures DayNumber(2024, 2, 29) == 19782
  {
    assert DaysBefore(2000, 3) == DaysBefore(2000, 2) + 29 && DaysBefore(2000, 2) == 31;
    assert DaysBefore(1900, 3) == DaysBefore(1900, 2) + 28 && DaysBefore(1900, 2) == 31;
  }
}
