/**
 ECMAScript's calendar (ECMA-262, section 21.4.1, "Time Values and Time Range" and its abstract
 operations): local dates as day numbers, day 0 being Thursday 1 January 1970.
 */
module Calendar {
  predicate IsLeap(y: int) {
    y % 4 == 0 && (y % 100 != 0 || y % 400 == 0)
  }

  function DaysIn(y: int): int {
    if IsLeap(y) then 366 else 365
  }

  // The first day of a year.
  function DayFromYear(y: int): int
    decreases if y >= 1970 then y - 1970 else 1970 - y
  {
    if y == 1970 then 0
    else if y > 1970 then DayFromYear(y - 1) + DaysIn(y - 1)
    else DayFromYear(y + 1) - DaysIn(y)
  }

  lemma YearLength(y: int)
    ensures DayFromYear(y + 1) == DayFromYear(y) + DaysIn(y)
  {
  }

  lemma QuotientSteps(a: int, m: int)
    requires m == 4 || m == 100 || m == 400
    ensures (a + 1) / m == a / m + if (a + 1) % m == 0 then 1 else 0
  {
  }

  function LeapDays(y: int): int {
    (y - 1969) / 4 - (y - 1901) / 100 + (y - 1601) / 400
  }

  lemma LeapDaysStep(y: int)
    ensures LeapDays(y + 1) == LeapDays(y) + if IsLeap(y) then 1 else 0
  {
    QuotientSteps(y - 1969, 4);
    QuotientSteps(y - 1901, 100);
    QuotientSteps(y - 1601, 400);
    Cycle4(y);
    Cycle100(y);
    Cycle400(y);
  }

  lemma Cycle4(y: int)
    ensures (y - 1968) % 4 == 0 <==> y % 4 == 0
  {
  }

  lemma Cycle100(y: int)
    ensures (y - 1900) % 100 == 0 <==> y % 100 == 0
    ensures y % 100 == 0 ==> y % 4 == 0
  {
  }

  lemma Cycle400(y: int)
    ensures (y - 1600) % 400 == 0 <==> y % 400 == 0
    ensures y % 400 == 0 ==> y % 100 == 0
  {
  }

  // The closed formula of the standard counts the days year by year.
  lemma {:induction false} DayFromYearFormula(y: int)
    ensures DayFromYear(y) == 365 * (y - 1970) + LeapDays(y)
    decreases if y >= 1970 then y - 1970 else 1970 - y
  {
    if y > 1970 {
      DayFromYearFormula(y - 1);
      LeapDaysStep(y - 1);
    } else if y < 1970 {
      DayFromYearFormula(y + 1);
      LeapDaysStep(y);
    }
  }

  lemma {:induction false} YearsOrdered(x: int, y: int)
    requires x < y
    ensures DayFromYear(x) + 365 <= DayFromYear(y)
    decreases y - x
  {
    YearLength(y - 1);
    if x < y - 1 {
      YearsOrdered(x, y - 1);
    }
  }

  function YearFrom(day: int, y: int): (r: int)
    requires DayFromYear(y) <= day
    ensures DayFromYear(r) <= day < DayFromYear(r + 1)
    decreases day - DayFromYear(y)
  {
    YearLength(y);
    if DayFromYear(y + 1) <= day then YearFrom(day, y + 1) else y
  }

  // A year that has begun by the day.
  function Begun(day: int): (y: int)
    ensures DayFromYear(y) <= day
  {
    EarlyYear(day);
    if day < 0 then 1970 + day / 365 else 1970 + day / 366
  }

  lemma LeapDaysBound(y: int)
    ensures y >= 1970 ==> LeapDays(y) <= y - 1970
    ensures y < 1970 ==> LeapDays(y) <= 0
  {
  }

  lemma EarlyYear(day: int)
    ensures DayFromYear(if day < 0 then 1970 + day / 365 else 1970 + day / 366) <= day
  {
    var y := if day < 0 then 1970 + day / 365 else 1970 + day / 366;
    DayFromYearFormula(y);
    LeapDaysBound(y);
  }

  // YearFromTime
  function YearOf(day: int): (y: int)
    ensures DayFromYear(y) <= day < DayFromYear(y + 1)
  {
    YearFrom(day, Begun(day))
  }

  lemma YearIsUnique(day: int, y: int)
    requires DayFromYear(y) <= day < DayFromYear(y + 1)
    ensures y == YearOf(day)
  {
    var r := YearOf(day);
    if r < y {
      if r + 1 < y {
        YearsOrdered(r + 1, y);
      }
    } else if y < r {
      if y + 1 < r {
        YearsOrdered(y + 1, r);
      }
    }
  }

  // The day of the year a month (counted from 0) starts on.
  function MonthStart(m: int, leap: bool): int {
    var l := if leap then 1 else 0;
    if m <= 0 then 0 else if m == 1 then 31 else
    l + (if m == 2 then 59 else if m == 3 then 90 else if m == 4 then 120 else if m == 5 then 151
         else if m == 6 then 181 else if m == 7 then 212 else if m == 8 then 243 else if m == 9 then 273
         else if m == 10 then 304 else if m == 11 then 334 else 365)
  }

  // April, June, September and November have 30 days, February 28 or 29, the others 31.
  lemma MonthLengths(m: int, leap: bool)
    requires 0 <= m <= 11
    ensures MonthStart(m + 1, leap) - MonthStart(m, leap) ==
            if m == 1 then (if leap then 29 else 28) else if m in {3, 5, 8, 10} then 30 else 31
  {
  }

  function MonthAt(n: int, leap: bool, m: int): (r: int)
    requires 0 <= m <= 11 && MonthStart(m, leap) <= n < MonthStart(12, leap)
    ensures m <= r <= 11 && MonthStart(r, leap) <= n < MonthStart(r + 1, leap)
    decreases 11 - m
  {
    if n < MonthStart(m + 1, leap) then m else MonthAt(n, leap, m + 1)
  }

  // getMonth
  function MonthOf(day: int): (m: int)
    ensures 0 <= m <= 11
  {
    YearLength(YearOf(day));
    MonthAt(day - DayFromYear(YearOf(day)), IsLeap(YearOf(day)), 0)
  }

  // getDate
  function DateOf(day: int): (d: int)
    ensures 1 <= d <= 31
  {
    YearLength(YearOf(day));
    day - DayFromYear(YearOf(day)) - MonthStart(MonthOf(day), IsLeap(YearOf(day))) + 1
  }

  // MakeFullYear: a two-digit year means the twentieth century.
  function FullYear(y: int): int {
    if 0 <= y <= 99 then 1900 + y else y
  }

  // new Date(y, m, d) for a month m of the year; d may fall outside the month.
  function NewDate(y: int, m: int, d: int): int {
    DayFromYear(FullYear(y)) + MonthStart(m, IsLeap(FullYear(y))) + d - 1
  }

  // Rebuilding a date from its own fields, with the day moved, moves the day.
  lemma FieldsRebuild(day: int, k: int)
    requires !(0 <= YearOf(day) <= 99)
    ensures NewDate(YearOf(day), MonthOf(day), DateOf(day) + k) == day + k
  {
  }

  // The fields determine the day.
  lemma FieldsDetermine(a: int, b: int)
    requires YearOf(a) == YearOf(b) && MonthOf(a) == MonthOf(b) && DateOf(a) == DateOf(b)
    ensures a == b
  {
  }

  // A two-digit year is rebuilt in another century.
  lemma TwoDigitYearsMove(day: int, k: int)
    requires 0 <= YearOf(day) <= 99 && -6 <= k
    ensures NewDate(YearOf(day), MonthOf(day), DateOf(day) + k) > day
  {
    var y := YearOf(day);
    YearsOrdered(y + 1, 1900 + y);
    MonthStartsInYear(MonthOf(day), IsLeap(1900 + y));
  }

  lemma MonthStartsInYear(m: int, leap: bool)
    ensures MonthStart(m, leap) >= 0
  {
  }

  // getDay: Sunday is 0.
  function Weekday(day: int): int {
    (day + 4) % 7
  }
}
