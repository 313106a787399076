/** The dates of archived notes: which strings count, and how they compare, in scripts/archived-agent-notes.ts. */
module ArchiveDates {
  import opened Calendar
  import opened Decimal

  /** The shape `dddd-dd-dd`. */
  predicate DateShape(value: string) {
    && |value| == 10 && value[4] == '-' && value[7] == '-'
    && AllDigits(value[..4]) && AllDigits(value[5..7]) && AllDigits(value[8..])
  }

  function YearIn(value: string): nat
    requires DateShape(value)
  {
    Decimal.Read(value[..4])
  }

  function MonthIn(value: string): nat
    requires DateShape(value)
  {
    Decimal.Read(value[5..7])
  }

  function DayIn(value: string): nat
    requires DateShape(value)
  {
    Decimal.Read(value[8..])
  }

  /** `Date.UTC`, in days: the years 0 to 99 stand for 1900 to 1999. */
  function Utc(year: int, month: int, date: int): int {
    MakeDay(if 0 <= year <= 99 then 1900 + year else year, month, date)
  }

  /** `validDate`: the date survives the round trip through a time value. */
  predicate ValidDate(value: string) {
    if !DateShape(value) then false
    else Survives(YearIn(value), MonthIn(value) - 1, DayIn(value))
  }

  predicate Survives(year: int, month: int, day: int) {
    var date := Utc(year, month, day);
    YearOf(date) == year && MonthOf(date) == month && DateOf(date) == day
  }

  lemma {:induction false} ReadBound(s: string)
    requires AllDigits(s) && |s| <= 4
    ensures Decimal.Read(s) < Power(|s|)
  {
    if s != "" {
      ReadBound(s[..|s| - 1]);
    }
  }

  function Power(n: nat): nat {
    if n == 0 then 1 else 10 * Power(n - 1)
  }

  lemma UtcRange(year: int, month: int, date: int)
    requires 0 <= year < 10000 && -1 <= month < 99 && 0 <= date < 100
    ensures -100_000_000 <= Utc(year, month, date) <= 100_000_000
  {
    var full := if 0 <= year <= 99 then 1900 + year else year;
    var y, m := full + month / 12, month % 12;
    assert -1 <= y <= 10010;
    MonthsAscend(y, 0, m);
    MonthsAscend(y, m, 12);
    WholeYear(y);
  }

  /** A time value holds every date such a string can name: no date is rejected for its size. */
  lemma WithinTimeRange(value: string)
    requires DateShape(value)
    ensures -100_000_000 <= Utc(YearIn(value), MonthIn(value) - 1, DayIn(value)) <= 100_000_000
  {
    hide Utc;
    ReadBound(value[..4]);
    ReadBound(value[5..7]);
    ReadBound(value[8..]);
    assert Power(2) == 100 && Power(3) == 1000 && Power(4) == 10000;
    UtcRange(YearIn(value), MonthIn(value) - 1, DayIn(value));
  }

  lemma SurvivesExactly(year: nat, month: int, day: int)
    ensures Survives(year, month, day) <==> year >= 100 && RealDate(year, month, day)
  {
    hide MakeDay, YearOf, MonthOf, DateOf;
    MakeOfRead(Utc(year, month, day));
    if year >= 100 {
      if RealDate(year, month, day) {
        ReadOfMake(year, month, day);
      }
    } else if 0 <= month < 12 {
      CenturiesApart(year, month, day);
    }
  }

  /** Exactly the real dates of the years from 100 on are valid. */
  lemma ValidDateExactly(value: string)
    ensures ValidDate(value) <==>
      DateShape(value) && YearIn(value) >= 100 && RealDate(YearIn(value), MonthIn(value) - 1, DayIn(value))
  {
    hide DateShape, YearIn, MonthIn, DayIn, RealDate, Survives;
    if DateShape(value) {
      SurvivesExactly(YearIn(value), MonthIn(value) - 1, DayIn(value));
    }
  }

  lemma CenturiesApart(year: int, month: int, date: int)
    requires 0 <= month < 12
    ensures MakeDay(1900 + year, month, date) != MakeDay(year, month, date)
  {
    YearsAscend(year, 1900 + year);
    assert month / 12 == 0 && month % 12 == month;
    MonthsAscend(year, month, 12);
    MonthsAscend(1900 + year, 0, month);
    WholeYear(year);
  }

  /** `a < b` on strings: code unit by code unit, a proper prefix first. */
  predicate StringLess(a: string, b: string) {
    if b == "" then false
    else if a == "" then true
    else if a[0] != b[0] then a[0] < b[0]
    else StringLess(a[1..], b[1..])
  }

  lemma {:induction false} LessByParts(a: string, b: string, x: string, y: string)
    requires |a| == |b|
    ensures StringLess(a + x, b + y) <==> StringLess(a, b) || (a == b && StringLess(x, y))
  {
    if a == "" {
      assert a + x == x && b + y == y;
    } else {
      LessByParts(a[1..], b[1..], x, y);
      assert (a + x)[1..] == a[1..] + x && (b + y)[1..] == b[1..] + y;
      assert a == [a[0]] + a[1..] && b == [b[0]] + b[1..];
    }
  }

  /** Numerals of one length compare as numbers, and are equal when their numbers are. */
  lemma {:induction false} LessIsSmaller(a: string, b: string)
    requires AllDigits(a) && AllDigits(b) && |a| == |b|
    ensures StringLess(a, b) <==> Decimal.Read(a) < Decimal.Read(b)
    ensures a == b <==> Decimal.Read(a) == Decimal.Read(b)
  {
    if a != "" {
      var n := |a| - 1;
      var front, c, other, d := a[..n], a[n], b[..n], b[n];
      assert a == front + [c] && b == other + [d];
      LessIsSmaller(front, other);
      LessByParts(front, other, [c], [d]);
      assert StringLess([c], [d]) <==> c < d;
      assert c == d <==> Value(c) == Value(d);
    }
  }

  lemma DateParts(value: string)
    requires DateShape(value)
    ensures value == value[..4] + ("-" + (value[5..7] + ("-" + value[8..])))
  {
  }

  /** Strings of this shape compare by year, then month, then day. */
  lemma LessByDate(a: string, b: string)
    requires DateShape(a) && DateShape(b)
    ensures StringLess(a, b) <==>
      || YearIn(a) < YearIn(b)
      || (YearIn(a) == YearIn(b) && (MonthIn(a) < MonthIn(b) || (MonthIn(a) == MonthIn(b) && DayIn(a) < DayIn(b))))
  {
    DateParts(a);
    DateParts(b);
    LessIsSmaller(a[..4], b[..4]);
    LessIsSmaller(a[5..7], b[5..7]);
    LessIsSmaller(a[8..], b[8..]);
    LessByParts(a[..4], b[..4], "-" + (a[5..7] + ("-" + a[8..])), "-" + (b[5..7] + ("-" + b[8..])));
    LessByParts("-", "-", a[5..7] + ("-" + a[8..]), b[5..7] + ("-" + b[8..]));
    LessByParts(a[5..7], b[5..7], "-" + a[8..], "-" + b[8..]);
    LessByParts("-", "-", a[8..], b[8..]);
    hide StringLess, Decimal.Read;
    assert !StringLess("-", "-") by { LessIrreflexive("-"); }
  }

  lemma LessIrreflexive(s: string)
    ensures !StringLess(s, s)
  {
  }

  /** The comparison of two valid dates as strings is their order in time. */
  lemma DateOrder(a: string, b: string)
    requires ValidDate(a) && ValidDate(b)
    ensures StringLess(a, b) <==>
      MakeDay(YearIn(a), MonthIn(a) - 1, DayIn(a)) < MakeDay(YearIn(b), MonthIn(b) - 1, DayIn(b))
  {
    ValidDateExactly(a);
    ValidDateExactly(b);
    LessByDate(a, b);
    hide ValidDate, DateShape, YearIn, MonthIn, DayIn, MakeDay, StringLess;
    DaysInOrder(YearIn(a), MonthIn(a) - 1, DayIn(a), YearIn(b), MonthIn(b) - 1, DayIn(b));
  }

  /** 1 January of the year 50 is a real date, but its string is not valid. */
  lemma YearFiftyIsRefused()
    ensures DateShape("0050-01-01") && YearIn("0050-01-01") == 50 && RealDate(50, 0, 1) && !ValidDate("0050-01-01")
  {
    var value := "0050-01-01";
    assert value[..4] == "0050" && value[5..7] == "01" && value[8..] == "01";
    assert "0"[..0] == "" && "00"[..1] == "0" && "005"[..2] == "00" && "0050"[..3] == "005";
    assert Decimal.Read("00") == 0;
    assert Decimal.Read("0050") == 50;
    hide ValidDate;
    ValidDateExactly(value);
  }
}
