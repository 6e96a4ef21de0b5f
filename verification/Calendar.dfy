// Day numbers and civil dates, as section 21.4.1 of ECMA-262 defines them.
module Calendar {

  datatype Date = Date(year: int, month: int, day: int)

  predicate IsLeap(y: int) { (y % 4 == 0 && y % 100 != 0) || y % 400 == 0 }

  function DaysInYear(y: int): int { if IsLeap(y) then 366 else 365 }

  // DayFromYear: `/` on a positive divisor is the floor.
  function DayFromYear(y: int): int {
    365 * (y - 1970) + (y - 1969) / 4 - (y - 1901) / 100 + (y - 1601) / 400
  }

  function DaysInMonth(y: int, m: int): int
    requires 1 <= m <= 12
  {
    if m == 2 then (if IsLeap(y) then 29 else 28)
    else if m in {4, 6, 9, 11} then 30 else 31
  }

  // The first day of each month within its year, and the year's length after the last.
  function DaysBeforeMonth(y: int, m: int): int
    requires 1 <= m <= 13
  {
    (if m == 1 then 0 else if m == 2 then 31 else if m == 3 then 59 else if m == 4 then 90
     else if m == 5 then 120 else if m == 6 then 151 else if m == 7 then 181 else if m == 8 then 212
     else if m == 9 then 243 else if m == 10 then 273 else if m == 11 then 304 else if m == 12 then 334 else 365)
    + (if m > 2 && IsLeap(y) then 1 else 0)
  }

  predicate IsDate(y: int, m: int, d: int) { 1 <= m <= 12 && 1 <= d <= DaysInMonth(y, m) }

  // MakeDay: a day past the month's end rolls into the following months.
  function DayNumber(y: int, m: int, d: int): int
    requires 1 <= m <= 12
  {
    DayFromYear(y) + DaysBeforeMonth(y, m) + d - 1
  }

  // YearFromTime: the largest year whose first day is not after the day.
  function YearOf(day: int): int { YearNear(day, 1970) }

  // How far a day lies outside a year that begins and ends there.
  function Outside(day: int, begin: int, end: int): int {
    if begin > day then begin - day else if end <= day then day - end + 1 else 0
  }

  function Distance(day: int, y: int): int { Outside(day, DayFromYear(y), DayFromYear(y + 1)) }

  lemma NeighbourIsCloser(day: int, a: int, b: int, c: int, d: int)
    requires a < b < c < d
    ensures b > day ==> Outside(day, a, b) < Outside(day, b, c)
    ensures c <= day ==> Outside(day, c, d) < Outside(day, b, c)
  {
  }

  lemma YearsGrow(y: int)
    ensures DayFromYear(y) < DayFromYear(y + 1)
  {
    YearLength(y);
  }

  lemma DistanceShrinks(day: int, y: int)
    ensures DayFromYear(y) > day ==> 0 <= Distance(day, y - 1) < Distance(day, y)
    ensures DayFromYear(y + 1) <= day ==> 0 <= Distance(day, y + 1) < Distance(day, y)
  {
    YearsGrow(y - 1);
    YearsGrow(y);
    YearsGrow(y + 1);
    NeighbourIsCloser(day, DayFromYear(y - 1), DayFromYear(y), DayFromYear(y + 1), DayFromYear(y + 2));
  }

  function YearNear(day: int, y: int): (r: int)
    ensures DayFromYear(r) <= day < DayFromYear(r + 1)
    decreases Distance(day, y)
  {
    DistanceShrinks(day, y);
    if DayFromYear(y) > day then YearNear(day, y - 1)
    else if DayFromYear(y + 1) <= day then YearNear(day, y + 1)
    else y
  }

  function MonthOf(y: int, within: int): (m: int)
    requires 0 <= within < DaysInYear(y)
    ensures 1 <= m <= 12 && DaysBeforeMonth(y, m) <= within < DaysBeforeMonth(y, m + 1)
  {
    MonthFrom(y, within, 12)
  }

  function MonthFrom(y: int, within: int, m: int): (r: int)
    requires 1 <= m <= 12 && 0 <= within < DaysBeforeMonth(y, m + 1)
    ensures 1 <= r <= 12 && DaysBeforeMonth(y, r) <= within < DaysBeforeMonth(y, r + 1)
  {
    if DaysBeforeMonth(y, m) <= within then m else MonthFrom(y, within, m - 1)
  }

  function Civil(day: int): Date {
    var y := YearOf(day);
    YearLength(y);
    var within := day - DayFromYear(y);
    var m := MonthOf(y, within);
    Date(y, m, within - DaysBeforeMonth(y, m) + 1)
  }

  // ---- the two directions are inverse ----

  // The three counts of leap years each grow by one exactly at their multiples.
  lemma FourthYears(y: int)
    ensures (y + 1 - 1969) / 4 == (y - 1969) / 4 + if y % 4 == 0 then 1 else 0
  {
    Carry(y - 1969, 4);
  }

  lemma HundredthYears(y: int)
    ensures (y + 1 - 1901) / 100 == (y - 1901) / 100 + if y % 100 == 0 then 1 else 0
  {
    Carry(y - 1901, 100);
  }

  lemma FourHundredthYears(y: int)
    ensures (y + 1 - 1601) / 400 == (y - 1601) / 400 + if y % 400 == 0 then 1 else 0
  {
    Carry(y - 1601, 400);
  }

  lemma YearLength(y: int)
    ensures DayFromYear(y + 1) - DayFromYear(y) == DaysInYear(y)
  {
    FourthYears(y);
    HundredthYears(y);
    FourHundredthYears(y);
  }

  lemma Carry(x: int, n: int)
    requires n in {4, 100, 400}
    ensures (x + 1) / n == x / n + if (x + 1) % n == 0 then 1 else 0
  {
    if n == 4 { } else if n == 100 { } else { assert n == 400; }
  }

  lemma MonthLength(y: int, m: int)
    requires 1 <= m <= 12
    ensures DaysBeforeMonth(y, m + 1) == DaysBeforeMonth(y, m) + DaysInMonth(y, m)
  {
  }

  lemma {:induction false} YearsAscend(a: int, b: int)
    requires a <= b
    ensures DayFromYear(a) <= DayFromYear(b)
    decreases b - a
  {
    if a < b {
      YearLength(a);
      YearsAscend(a + 1, b);
    }
  }

  lemma {:induction false} MonthsAscend(y: int, a: int, b: int)
    requires 1 <= a <= b <= 13
    ensures DaysBeforeMonth(y, a) <= DaysBeforeMonth(y, b)
    decreases b - a
  {
    if a < b {
      MonthLength(y, a);
      MonthsAscend(y, a + 1, b);
    }
  }

  lemma YearIsUnique(day: int, y: int, r: int)
    requires DayFromYear(y) <= day < DayFromYear(y + 1)
    requires DayFromYear(r) <= day < DayFromYear(r + 1)
    ensures y == r
  {
    if y < r { YearsAscend(y + 1, r); }
    if r < y { YearsAscend(r + 1, y); }
  }

  lemma MonthIsUnique(y: int, within: int, a: int, b: int)
    requires 1 <= a <= 12 && 1 <= b <= 12
    requires DaysBeforeMonth(y, a) <= within < DaysBeforeMonth(y, a + 1)
    requires DaysBeforeMonth(y, b) <= within < DaysBeforeMonth(y, b + 1)
    ensures a == b
  {
    if a < b { MonthsAscend(y, a + 1, b); }
    if b < a { MonthsAscend(y, b + 1, a); }
  }

  // Every day number is exactly one existing date.
  lemma CivilIsADate(day: int)
    ensures var c := Civil(day);
            IsDate(c.year, c.month, c.day) && DayNumber(c.year, c.month, c.day) == day
  {
    MonthLength(YearOf(day), Civil(day).month);
  }

  // Every existing date is exactly one day number.
  lemma DateOfItsDayNumber(y: int, m: int, d: int)
    requires IsDate(y, m, d)
    ensures Civil(DayNumber(y, m, d)) == Date(y, m, d)
  {
    var day := DayNumber(y, m, d);
    MonthLength(y, m);
    MonthsAscend(y, 1, m);
    MonthsAscend(y, m + 1, 13);
    YearLength(y);
    assert DaysBeforeMonth(y, 13) == DaysInYear(y);
    YearIsUnique(day, y, YearOf(day));
    MonthIsUnique(y, day - DayFromYear(y), m, Civil(day).month);
  }

  // A day past the end of its month is some other existing date.
  lemma RolledDayDiffers(y: int, m: int, d: int)
    requires 1 <= m <= 12
    ensures Civil(DayNumber(y, m, d)) == Date(y, m, d) <==> IsDate(y, m, d)
  {
    CivilIsADate(DayNumber(y, m, d));
    if IsDate(y, m, d) {
      DateOfItsDayNumber(y, m, d);
    }
  }
}
