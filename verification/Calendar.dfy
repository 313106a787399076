/** Day numbers of the proleptic Gregorian calendar, after sections 21.4.1 and 21.4.3.4 of ECMA-262. */
module Calendar {
  predicate IsLeap(year: int) {
    year % 4 == 0 && (year % 100 != 0 || year % 400 == 0)
  }

  function DaysInYear(year: int): int {
    if IsLeap(year) then 366 else 365
  }

  /** The number of the first day of a year; day 0 is 1 January 1970. */
  function DayFromYear(year: int): int {
    365 * (year - 1970) + (year - 1969) / 4 - (year - 1901) / 100 + (year - 1601) / 400
  }

  function DaysInMonth(year: int, month: nat): int
    requires month < 12
  {
    if month == 1 then (if IsLeap(year) then 29 else 28)
    else if month == 3 || month == 5 || month == 8 || month == 10 then 30
    else 31
  }

  function DaysBefore(year: int, month: nat): (days: int)
    requires month <= 12
  {
    if month == 0 then 0 else DaysBefore(year, month - 1) + DaysInMonth(year, month - 1)
  }

  /** Passing into the next year crosses a multiple of `d` just when the year is one. */
  lemma CrossFour(year: int)
    ensures (year + 1 - 1969) / 4 == (year - 1969) / 4 + if year % 4 == 0 then 1 else 0
  {
  }

  lemma CrossHundred(year: int)
    ensures (year + 1 - 1901) / 100 == (year - 1901) / 100 + if year % 100 == 0 then 1 else 0
  {
  }

  lemma CrossFourHundred(year: int)
    ensures (year + 1 - 1601) / 400 == (year - 1601) / 400 + if year % 400 == 0 then 1 else 0
  {
  }

  lemma HundredsAreFours(year: int)
    ensures year % 400 == 0 ==> year % 100 == 0
    ensures year % 100 == 0 ==> year % 4 == 0
  {
  }

  lemma NextYear(year: int)
    ensures DayFromYear(year + 1) == DayFromYear(year) + DaysInYear(year)
  {
    CrossFour(year);
    CrossHundred(year);
    CrossFourHundred(year);
    HundredsAreFours(year);
  }

  lemma WholeYear(year: int)
    ensures DaysBefore(year, 12) == DaysInYear(year)
  {
    var february := DaysInMonth(year, 1);
    assert DaysBefore(year, 0) == 0;
    assert DaysBefore(year, 1) == 31;
    assert DaysBefore(year, 2) == 31 + february;
    assert DaysBefore(year, 3) == 62 + february;
    assert DaysBefore(year, 4) == 92 + february;
    assert DaysBefore(year, 5) == 123 + february;
    assert DaysBefore(year, 6) == 153 + february;
    assert DaysBefore(year, 7) == 184 + february;
    assert DaysBefore(year, 8) == 215 + february;
    assert DaysBefore(year, 9) == 245 + february;
    assert DaysBefore(year, 10) == 276 + february;
    assert DaysBefore(year, 11) == 306 + february;
  }

  lemma {:induction false} YearsAscend(a: int, b: int)
    requires a <= b
    ensures DayFromYear(b) - DayFromYear(a) >= 365 * (b - a)
    decreases b - a
  {
    if a < b {
      NextYear(a);
      YearsAscend(a + 1, b);
    }
  }

  lemma {:induction false} MonthsAscend(year: int, a: nat, b: nat)
    requires a <= b <= 12
    ensures DaysBefore(year, b) - DaysBefore(year, a) >= 28 * (b - a)
    decreases b - a
  {
    if a < b {
      MonthsAscend(year, a, b - 1);
    }
  }

  /** The latest year that has begun by the given day. */
  function YearFrom(day: int, from: int): (year: int)
    requires DayFromYear(from) <= day
    ensures DayFromYear(year) <= day < DayFromYear(year + 1)
    decreases day - DayFromYear(from)
  {
    NextYear(from);
    if day < DayFromYear(from + 1) then from else YearFrom(day, from + 1)
  }

  /** `YearFromTime`. */
  function YearOf(day: int): (year: int)
    ensures DayFromYear(year) <= day < DayFromYear(year + 1)
  {
    var far := 1970 - (if day < 0 then -day else 0);
    YearsAscend(far, 1970);
    YearFrom(day, far)
  }

  function MonthFrom(year: int, dayInYear: int, from: nat): (month: nat)
    requires from < 12 && DaysBefore(year, from) <= dayInYear < DaysBefore(year, 12)
    ensures month < 12 && DaysBefore(year, month) <= dayInYear < DaysBefore(year, month + 1)
    decreases 12 - from
  {
    if dayInYear < DaysBefore(year, from + 1) then from else MonthFrom(year, dayInYear, from + 1)
  }

  /** `MonthFromTime`. */
  function MonthOf(day: int): (month: nat)
    ensures month < 12
  {
    NextYear(YearOf(day));
    WholeYear(YearOf(day));
    MonthFrom(YearOf(day), day - DayFromYear(YearOf(day)), 0)
  }

  /** `DateFromTime`. */
  function DateOf(day: int): (date: int)
    ensures 1 <= date <= DaysInMonth(YearOf(day), MonthOf(day))
  {
    NextYear(YearOf(day));
    WholeYear(YearOf(day));
    day - DayFromYear(YearOf(day)) - DaysBefore(YearOf(day), MonthOf(day)) + 1
  }

  /** `MakeDay`: months and days outside their ranges carry over. */
  function MakeDay(year: int, month: int, date: int): int {
    var y, m := year + month / 12, month % 12;
    DayFromYear(y) + DaysBefore(y, m) + date - 1
  }

  ghost predicate RealDate(year: int, month: int, date: int) {
    0 <= month < 12 && 1 <= date <= DaysInMonth(year, month)
  }

  /** Reading a day number gives a real date, and making its day gives the number back. */
  lemma MakeOfRead(day: int)
    ensures RealDate(YearOf(day), MonthOf(day), DateOf(day))
    ensures MakeDay(YearOf(day), MonthOf(day), DateOf(day)) == day
  {
    hide DayFromYear, DaysBefore;
    assert MonthOf(day) / 12 == 0 && MonthOf(day) % 12 == MonthOf(day);
  }

  /** Making the day of a real date and reading it gives the date back. */
  lemma ReadOfMake(year: int, month: int, date: int)
    requires RealDate(year, month, date)
    ensures var day := MakeDay(year, month, date);
      YearOf(day) == year && MonthOf(day) == month && DateOf(day) == date
  {
    var day := MakeDay(year, month, date);
    assert month / 12 == 0 && month % 12 == month;
    WithinYear(year, month, date);
    assert day == DayFromYear(year) + DaysBefore(year, month) + date - 1;
    hide RealDate, MonthOf;
    hide DayFromYear, DaysBefore, DaysInMonth, MakeDay, YearOf, IsLeap;
    SameYear(day, year, YearOf(day));
    MonthBounds(day);
    SameMonth(year, day - DayFromYear(year), month, MonthOf(day));
  }

  lemma MonthBounds(day: int)
    ensures DaysBefore(YearOf(day), MonthOf(day)) <= day - DayFromYear(YearOf(day)) < DaysBefore(YearOf(day), MonthOf(day) + 1)
  {
    hide DayFromYear, DaysBefore, YearOf;
    NextYear(YearOf(day));
    WholeYear(YearOf(day));
  }

  lemma WithinYear(year: int, month: int, date: int)
    requires RealDate(year, month, date)
    ensures var dayInYear := DaysBefore(year, month) + date - 1;
      0 <= dayInYear < DaysInYear(year) && DaysBefore(year, month) <= dayInYear < DaysBefore(year, month + 1)
  {
    MonthsAscend(year, 0, month);
    MonthsAscend(year, month + 1, 12);
    WholeYear(year);
  }

  lemma SameYear(day: int, a: int, b: int)
    requires DayFromYear(a) <= day < DayFromYear(a) + DaysInYear(a)
    requires DayFromYear(b) <= day < DayFromYear(b + 1)
    ensures a == b
  {
    hide DayFromYear;
    NextYear(a);
    if a < b {
      YearsAscend(a + 1, b);
    } else if b < a {
      YearsAscend(b + 1, a);
    }
  }

  lemma SameMonth(year: int, dayInYear: int, a: nat, b: nat)
    requires a < 12 && DaysBefore(year, a) <= dayInYear < DaysBefore(year, a + 1)
    requires b < 12 && DaysBefore(year, b) <= dayInYear < DaysBefore(year, b + 1)
    ensures a == b
  {
    hide DaysBefore;
    if a < b {
      MonthsAscend(year, a + 1, b);
    } else if b < a {
      MonthsAscend(year, b + 1, a);
    }
  }

  /** Real dates are in the order of their year, month and day. */
  lemma DaysInOrder(y: int, m: int, d: int, year: int, month: int, date: int)
    requires RealDate(y, m, d) && RealDate(year, month, date)
    ensures MakeDay(y, m, d) < MakeDay(year, month, date)
      <==> y < year || (y == year && (m < month || (m == month && d < date)))
  {
    DaysLater(y, m, d, year, month, date);
    DaysLater(year, month, date, y, m, d);
  }

  lemma DaysLater(y: int, m: int, d: int, year: int, month: int, date: int)
    requires RealDate(y, m, d) && RealDate(year, month, date)
    ensures y < year || (y == year && (m < month || (m == month && d < date))) ==>
      MakeDay(y, m, d) < MakeDay(year, month, date)
  {
    hide DayFromYear, DaysBefore;
    WithinYear(y, m, d);
    WithinYear(year, month, date);
    if y < year {
      NextYear(y);
      YearsAscend(y + 1, year);
    } else if y == year && m < month {
      MonthsAscend(y, m + 1, month);
    }
  }
}
