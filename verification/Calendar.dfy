/**
 Calendar dates, and the date that the constructor of JavaScript's Date makes of year, month and
 day: it counts the days from the first of the given month, however many they are.
 */
module Calendar {

  predicate IsLeap(year: nat) {
    year % 4 == 0 && (year % 100 != 0 || year % 400 == 0)
  }

  /** The days of a month; months are numbered from January 2000, which is 0. */
  function DaysIn(month: nat): (days: nat)
    ensures 28 <= days <= 31
  {
    var index := month % 12;
    if index == 1 then if IsLeap(2000 + month / 12) then 29 else 28
    else if index in {3, 5, 8, 10} then 30
    else 31
  }

  datatype Date = Date(month: nat, day: nat)

  predicate ValidDate(d: Date) {
    1 <= d.day <= DaysIn(d.month)
  }

  /** The days before the given month. */
  function DaysBefore(month: nat): nat {
    if month == 0 then 0 else DaysBefore(month - 1) + DaysIn(month - 1)
  }

  /** The number of the day, counted from 1 January 2000, that lies day - 1 days after the first of the month. */
  function DayNumber(month: nat, day: nat): int {
    DaysBefore(month) + day - 1
  }

  /** The days of a month that has fewer are carried into the months after it. */
  function Carried(month: nat, day: nat): (d: Date)
    requires day >= 1
    ensures ValidDate(d)
    decreases day
  {
    if day <= DaysIn(month) then Date(month, day) else Carried(month + 1, day - DaysIn(month))
  }

  /** A day of an ordinary month number is carried once at most. */
  lemma CarriedOnce(month: nat, day: nat)
    requires 1 <= day <= 31
    ensures Carried(month, day)
            == if day <= DaysIn(month) then Date(month, day) else Date(month + 1, day - DaysIn(month))
  {
  }

  lemma {:induction false} CarriedIsSameDay(month: nat, day: nat)
    requires day >= 1
    ensures var d := Carried(month, day); DayNumber(d.month, d.day) == DayNumber(month, day)
    decreases day
  {
    if day > DaysIn(month) {
      CarriedIsSameDay(month + 1, day - DaysIn(month));
    }
  }

  lemma {:induction false} MonthsInOrder(a: nat, b: nat)
    requires a < b
    ensures DaysBefore(a) + DaysIn(a) <= DaysBefore(b)
    decreases b
  {
    if a < b - 1 {
      MonthsInOrder(a, b - 1);
    }
  }

  lemma DatesDistinct(d: Date, e: Date)
    requires ValidDate(d) && ValidDate(e) && DayNumber(d.month, d.day) == DayNumber(e.month, e.day)
    ensures d == e
  {
    if d.month < e.month {
      MonthsInOrder(d.month, e.month);
    } else if e.month < d.month {
      MonthsInOrder(e.month, d.month);
    }
  }

  /** Carrying gives the one date with the day number that the constructor computes. */
  lemma CarriedIsTheDate(month: nat, day: nat, d: Date)
    requires day >= 1 && ValidDate(d)
    ensures d == Carried(month, day) <==> DayNumber(d.month, d.day) == DayNumber(month, day)
  {
    CarriedIsSameDay(month, day);
    if DayNumber(d.month, d.day) == DayNumber(month, day) {
      DatesDistinct(d, Carried(month, day));
    }
  }

  // ---------------------------------------------------------------- the arithmetic of ECMAScript

  /** DayFromYear: the days from 1 January 1970 to the first of January of the year. */
  function DayFromYear(year: nat): int {
    365 * (year - 1970) + (year - 1969) / 4 - (year - 1901) / 100 + (year - 1601) / 400
  }

  /** The days of a year before a month, numbered from zero. */
  function DayOfFirst(index: nat, leap: bool): nat
    requires index < 12
  {
    [0, 31, 59, 90, 120, 151, 181, 212, 243, 273, 304, 334][index] + if leap && index >= 2 then 1 else 0
  }

  lemma YearLength(year: nat)
    requires year >= 2000
    ensures DayFromYear(year + 1) - DayFromYear(year) == LengthOfYear(year)
  {
    FourthYear(year);
    HundredthYear(year);
    FourHundredthYear(year);
    CenturiesAreFourthYears(year);
  }

  function LengthOfYear(year: nat): nat {
    if IsLeap(year) then 366 else 365
  }

  lemma FourthYear(year: nat)
    requires year >= 2000
    ensures (year + 1 - 1969) / 4 - (year - 1969) / 4 == if year % 4 == 0 then 1 else 0
  {
  }

  lemma HundredthYear(year: nat)
    requires year >= 2000
    ensures (year + 1 - 1901) / 100 - (year - 1901) / 100 == if year % 100 == 0 then 1 else 0
  {
  }

  lemma FourHundredthYear(year: nat)
    requires year >= 2000
    ensures (year + 1 - 1601) / 400 - (year - 1601) / 400 == if year % 400 == 0 then 1 else 0
  {
  }

  lemma CenturiesAreFourthYears(year: nat)
    ensures year % 100 == 0 ==> year % 4 == 0
    ensures year % 400 == 0 ==> year % 100 == 0
  {
    FourTimes(year, 25 * (year / 100));
    HundredTimes(year, 4 * (year / 400));
  }

  lemma FourTimes(n: nat, m: nat)
    ensures n == 4 * m ==> n % 4 == 0
  {
  }

  lemma HundredTimes(n: nat, m: nat)
    ensures n == 100 * m ==> n % 100 == 0
  {
  }

  lemma MonthLength(index: nat, year: nat)
    requires index < 12 && year >= 2000
    ensures DaysIn(January(year) + index)
            == (if index == 11 then LengthOfYear(year) else DayOfFirst(index + 1, IsLeap(year)))
               - DayOfFirst(index, IsLeap(year))
  {
  }

  /** Counted month by month, a date has the number that ECMAScript's MakeDay gives it, less that of 1 January 2000. */
  lemma DayNumberIsMakeDay(month: nat, day: nat)
    ensures var year := 2000 + month / 12;
            DayNumber(month, day) == DayFromYear(year) + DayOfFirst(month % 12, IsLeap(year)) + day - 1 - 10957
  {
    YearBegins(2000 + month / 12);
    WithinYear(2000 + month / 12, month % 12);
  }

  /** The first month of a year. */
  function January(year: nat): nat
    requires year >= 2000
  {
    12 * (year - 2000)
  }

  lemma {:induction false} WithinYear(year: nat, index: nat)
    requires year >= 2000 && index < 12
    ensures DaysBefore(January(year) + index) == DaysBefore(January(year)) + DayOfFirst(index, IsLeap(year))
    decreases index
  {
    if index > 0 {
      WithinYear(year, index - 1);
      MonthLength(index - 1, year);
      OneMonthMore(January(year) + index);
    }
  }

  lemma NextYear(year: nat)
    requires year >= 2000
    ensures DaysBefore(January(year + 1)) == DaysBefore(January(year)) + LengthOfYear(year)
  {
    WithinYear(year, 11);
    MonthLength(11, year);
    OneMonthMore(January(year + 1));
  }

  lemma {:induction false} YearBegins(year: nat)
    requires year >= 2000
    ensures DaysBefore(January(year)) == DayFromYear(year) - 10957
    decreases year
  {
    if year > 2000 {
      YearBegins(year - 1);
      NextYear(year - 1);
      YearLength(year - 1);
    } else {
      assert DayFromYear(2000) == 10957;
    }
  }

  lemma OneMonthMore(month: nat)
    requires month > 0
    ensures DaysBefore(month) == DaysBefore(month - 1) + DaysIn(month - 1)
  {
  }
}
