/** A proleptic-Gregorian calendar date following the ISO 8601 calendar, the
    date type the calendar component gets from Temporal.PlainDate: days per
    month with leap years, day arithmetic, month arithmetic with the day
    clamped to the target month ("constrain" overflow), the ISO weekday and
    the field-wise comparison. Every day is numbered by its ordinal (day 1 is
    0001-01-01, a Monday), and the operations are proved against it. */
module Dates {

  datatype Date = Date(year: int, month: int, day: int) {
    /** A real day of the calendar: month 1..12, day 1..days in that month. */
    predicate Valid() {
      1 <= month <= 12 && 1 <= day <= DaysInMonth(year, month)
    }
  }

  predicate IsLeapYear(y: int) {
    y % 4 == 0 && (y % 100 != 0 || y % 400 == 0)
  }

  function DaysInMonth(y: int, m: int): (n: int)
    requires 1 <= m <= 12
    ensures 28 <= n <= 31
    ensures n == 29 <==> m == 2 && IsLeapYear(y)
  {
    if m == 2 then (if IsLeapYear(y) then 29 else 28)
    else if m == 4 || m == 6 || m == 9 || m == 11 then 30
    else 31
  }

  function YearLength(y: int): int {
    if IsLeapYear(y) then 366 else 365
  }

  /** Days in the years 1 .. y-1; for a year before 1, minus the days in
      the years y .. 0. */
  function DaysBeforeYear(y: int): int
    decreases if y >= 1 then y - 1 else 1 - y
  {
    if y == 1 then 0
    else if y > 1 then DaysBeforeYear(y - 1) + YearLength(y - 1)
    else DaysBeforeYear(y + 1) - YearLength(y)
  }

  /** Days in the months 1 .. m-1 of year y. */
  function DaysBeforeMonth(y: int, m: int): int {
    var common :=
      if m == 1 then 0 else if m == 2 then 31 else if m == 3 then 59 else if m == 4 then 90
      else if m == 5 then 120 else if m == 6 then 151 else if m == 7 then 181 else if m == 8 then 212
      else if m == 9 then 243 else if m == 10 then 273 else if m == 11 then 304 else 334;
    if m > 2 && IsLeapYear(y) then common + 1 else common
  }

  /** The day number of d: 0001-01-01 is day 1. */
  function Ordinal(d: Date): int {
    DaysBeforeYear(d.year) + DaysBeforeMonth(d.year, d.month) + d.day
  }

  /** A year holds 366 days in a leap year and 365 otherwise. */
  lemma YearStep(y: int)
    ensures DaysBeforeYear(y + 1) == DaysBeforeYear(y) + YearLength(y)
  {
  }

  lemma MonthStep(y: int, m: int)
    requires 1 <= m <= 12
    ensures m < 12 ==> DaysBeforeMonth(y, m + 1) == DaysBeforeMonth(y, m) + DaysInMonth(y, m)
    ensures m == 12 ==> DaysBeforeMonth(y, m) + DaysInMonth(y, m) == YearLength(y)
  {
  }

  lemma {:induction false} YearsMonotone(y1: int, y2: int)
    requires y1 <= y2
    ensures DaysBeforeYear(y1) + 365 * (y2 - y1) <= DaysBeforeYear(y2)
    decreases y2 - y1
  {
    if y1 < y2 {
      YearStep(y1);
      YearsMonotone(y1 + 1, y2);
    }
  }

  lemma MonthsMonotone(y: int, m1: int, m2: int)
    requires 1 <= m1 < m2 <= 12
    ensures DaysBeforeMonth(y, m1) + DaysInMonth(y, m1) <= DaysBeforeMonth(y, m2)
  {
  }

  /** A valid date's ordinal lies inside its month and inside its year. */
  lemma OrdinalBounds(d: Date)
    requires d.Valid()
    ensures DaysBeforeYear(d.year) < Ordinal(d) <= DaysBeforeYear(d.year + 1)
  {
    YearStep(d.year);
    MonthStep(d.year, d.month);
    if d.month < 12 {
      MonthsMonotone(d.year, d.month, 12);
      MonthStep(d.year, 12);
    }
  }

  /** The calendar's next day: within the month, into the next month, or
      into the next year. */
  function NextDay(d: Date): (r: Date)
    requires d.Valid()
    ensures r.Valid()
  {
    if d.day < DaysInMonth(d.year, d.month) then Date(d.year, d.month, d.day + 1)
    else if d.month < 12 then Date(d.year, d.month + 1, 1)
    else Date(d.year + 1, 1, 1)
  }

  /** The next day is the day numbered one more. */
  lemma NextDayOrdinal(d: Date)
    requires d.Valid()
    ensures Ordinal(NextDay(d)) == Ordinal(d) + 1
  {
    MonthStep(d.year, d.month);
    YearStep(d.year);
  }

  /** The calendar's previous day. */
  function PrevDay(d: Date): (r: Date)
    requires d.Valid()
    ensures r.Valid()
  {
    if d.day > 1 then Date(d.year, d.month, d.day - 1)
    else if d.month > 1 then Date(d.year, d.month - 1, DaysInMonth(d.year, d.month - 1))
    else Date(d.year - 1, 12, 31)
  }

  /** The previous day is the day numbered one less. */
  lemma PrevDayOrdinal(d: Date)
    requires d.Valid()
    ensures Ordinal(PrevDay(d)) == Ordinal(d) - 1
  {
    YearStep(d.year - 1);
    if d.day == 1 && d.month > 1 {
      MonthStep(d.year, d.month - 1);
    } else if d.day == 1 {
      MonthStep(d.year - 1, 12);
    }
  }

  /** Temporal's `add({ days: n })`; a negative n is `subtract({ days: -n })`. */
  function AddDays(d: Date, n: int): (r: Date)
    requires d.Valid()
    ensures r.Valid()
    decreases if n < 0 then -n else n
  {
    if n == 0 then d
    else if n > 0 then AddDays(NextDay(d), n - 1)
    else AddDays(PrevDay(d), n + 1)
  }

  /** Temporal's `subtract({ days: n })`. */
  function SubtractDays(d: Date, n: int): (r: Date)
    requires d.Valid()
    ensures r.Valid()
  {
    AddDays(d, -n)
  }

  /** Adding n days moves the day number by exactly n. */
  lemma {:induction false} AddDaysOrdinal(d: Date, n: int)
    requires d.Valid()
    ensures Ordinal(AddDays(d, n)) == Ordinal(d) + n
    decreases if n < 0 then -n else n
  {
    if n > 0 {
      NextDayOrdinal(d);
      AddDaysOrdinal(NextDay(d), n - 1);
    } else if n < 0 {
      PrevDayOrdinal(d);
      AddDaysOrdinal(PrevDay(d), n + 1);
    }
  }

  /** Temporal.PlainDate.compare: field by field, -1, 0 or 1. */
  function Compare(a: Date, b: Date): int {
    if a.year != b.year then (if a.year < b.year then -1 else 1)
    else if a.month != b.month then (if a.month < b.month then -1 else 1)
    else if a.day != b.day then (if a.day < b.day then -1 else 1)
    else 0
  }

  lemma EarlierFieldsSmallerOrdinal(a: Date, b: Date)
    requires a.Valid() && b.Valid() && Compare(a, b) < 0
    ensures Ordinal(a) < Ordinal(b)
  {
    if a.year < b.year {
      OrdinalBounds(a);
      OrdinalBounds(b);
      YearsMonotone(a.year + 1, b.year);
    } else if a.month < b.month {
      MonthsMonotone(a.year, a.month, b.month);
    }
  }

  /** The field-wise comparison agrees with the order of the days, and two
      valid dates with the same ordinal are the same date. */
  lemma CompareIsOrdinalOrder(a: Date, b: Date)
    requires a.Valid() && b.Valid()
    ensures Compare(a, b) < 0 <==> Ordinal(a) < Ordinal(b)
    ensures Compare(a, b) == 0 <==> Ordinal(a) == Ordinal(b)
    ensures Compare(a, b) == 0 <==> a == b
    ensures Compare(a, b) > 0 <==> Ordinal(a) > Ordinal(b)
  {
    if Compare(a, b) < 0 {
      EarlierFieldsSmallerOrdinal(a, b);
    } else if Compare(a, b) > 0 {
      assert Compare(b, a) < 0;
      EarlierFieldsSmallerOrdinal(b, a);
    }
  }

  lemma OrdinalInjective(a: Date, b: Date)
    requires a.Valid() && b.Valid() && Ordinal(a) == Ordinal(b)
    ensures a == b
  {
    CompareIsOrdinalOrder(a, b);
  }

  /** Offsets written differently but equal as numbers reach the same day.
      A solver hint only: the solver does not merge the two argument terms
      cheaply by itself. */
  lemma SameOffset(d: Date, m: int, n: int)
    requires d.Valid() && m == n
    ensures AddDays(d, m) == AddDays(d, n)
  {
  }

  /** Adding days twice is adding their sum. */
  lemma AddDaysAdd(d: Date, m: int, n: int)
    requires d.Valid()
    ensures AddDays(AddDays(d, m), n) == AddDays(d, m + n)
  {
    AddDaysOrdinal(d, m);
    AddDaysOrdinal(AddDays(d, m), n);
    AddDaysOrdinal(d, m + n);
    OrdinalInjective(AddDays(AddDays(d, m), n), AddDays(d, m + n));
  }

  /** Distinct offsets from one day give distinct days. */
  lemma AddDaysInjective(d: Date, m: int, n: int)
    requires d.Valid() && m != n
    ensures AddDays(d, m) != AddDays(d, n)
  {
    AddDaysOrdinal(d, m);
    AddDaysOrdinal(d, n);
  }

  /** Every later valid date is reached from d by adding the difference of
      their ordinals. */
  lemma AddDaysReaches(d: Date, e: Date)
    requires d.Valid() && e.Valid()
    ensures AddDays(d, Ordinal(e) - Ordinal(d)) == e
  {
    AddDaysOrdinal(d, Ordinal(e) - Ordinal(d));
    OrdinalInjective(AddDays(d, Ordinal(e) - Ordinal(d)), e);
  }

  /** ISO day of the week: 1 = Monday .. 7 = Sunday. */
  function Weekday(d: Date): (w: int)
    ensures 1 <= w <= 7
  {
    (Ordinal(d) - 1) % 7 + 1
  }

  /** Stepping n days moves the weekday n places round the week. */
  lemma WeekdayAfter(d: Date, n: int)
    requires d.Valid()
    ensures Weekday(AddDays(d, n)) == (Weekday(d) - 1 + n) % 7 + 1
  {
    var e := AddDays(d, n);
    var o := Ordinal(d) - 1;
    AddDaysOrdinal(d, n);
    assert Ordinal(e) - 1 == o + n;
    WeekShift(o, n);
    assert Weekday(d) - 1 == o % 7;
  }

  /** Shifting a number by n shifts its remainder modulo 7 by n. */
  lemma WeekShift(o: int, n: int)
    ensures (o + n) % 7 == (o % 7 + n) % 7
  {
    var q := o / 7;
    assert o == 7 * q + o % 7;
    assert o + n == 7 * q + (o % 7 + n);
    ModuloShift(o % 7 + n, q);
  }

  lemma ModuloShift(x: int, q: int)
    ensures (7 * q + x) % 7 == x % 7
  {
    var r := x % 7;
    var k := x / 7;
    assert x == 7 * k + r;
    assert 7 * q + x == 7 * (q + k) + r;
  }

  /** The leap years among 1 .. y-1: every fourth, less every hundredth,
      plus every four-hundredth. */
  function LeapYearsBefore(y: int): int {
    (y - 1) / 4 - (y - 1) / 100 + (y - 1) / 400
  }

  /** Passing year y adds one multiple of k (4, 100 or 400) exactly when k
      divides y. */
  lemma MultiplesStep(y: int, k: int)
    requires y >= 1 && (k == 4 || k == 100 || k == 400)
    ensures y / k - (y - 1) / k == if y % k == 0 then 1 else 0
  {
    if k == 4 {
      assert y / 4 - (y - 1) / 4 == if y % 4 == 0 then 1 else 0;
    } else if k == 100 {
      assert y / 100 - (y - 1) / 100 == if y % 100 == 0 then 1 else 0;
    } else {
      assert y / 400 - (y - 1) / 400 == if y % 400 == 0 then 1 else 0;
    }
  }

  /** A multiple of 400 is a multiple of 100, and a multiple of 100 is a
      multiple of 4. */
  lemma DivisorsNest(z: int)
    ensures z % 400 == 0 ==> z % 100 == 0
    ensures z % 100 == 0 ==> z % 4 == 0
  {
    if z % 400 == 0 {
      MultipleOf(z / 400 * 4, 100, z);
    }
    if z % 100 == 0 {
      MultipleOf(z / 100 * 25, 4, z);
    }
  }

  lemma MultipleOf(q: int, k: int, z: int)
    requires (k == 4 || k == 100) && z == k * q
    ensures z % k == 0
  {
    if k == 4 {
      assert (4 * q) % 4 == 0;
    } else {
      assert (100 * q) % 100 == 0;
    }
  }

  /** Passing year z adds one leap year exactly when z is a leap year. */
  lemma LeapYearsStep(z: int)
    requires z >= 1
    ensures LeapYearsBefore(z + 1) == LeapYearsBefore(z) + if IsLeapYear(z) then 1 else 0
  {
    MultiplesStep(z, 4);
    MultiplesStep(z, 100);
    MultiplesStep(z, 400);
    DivisorsNest(z);
    var a, b, c := z / 4 - (z - 1) / 4, z / 100 - (z - 1) / 100, z / 400 - (z - 1) / 400;
    assert LeapYearsBefore(z + 1) == LeapYearsBefore(z) + (a - b + c);
    if z % 400 == 0 {
      assert a == 1 && b == 1 && c == 1 && IsLeapYear(z);
    } else if z % 100 == 0 {
      assert a == 1 && b == 1 && c == 0 && !IsLeapYear(z);
    } else if z % 4 == 0 {
      assert a == 1 && b == 0 && c == 0 && IsLeapYear(z);
    } else {
      assert a == 0 && b == 0 && c == 0 && !IsLeapYear(z);
    }
  }

  /** The days before year y in closed form: 365 per year plus one per leap
      year, the Gregorian count that fixes the day numbering. */
  lemma {:induction false} DaysBeforeYearClosed(y: int)
    requires y >= 1
    ensures DaysBeforeYear(y) == 365 * (y - 1) + LeapYearsBefore(y)
    decreases y
  {
    if y > 1 {
      var z := y - 1;
      DaysBeforeYearClosed(z);
      YearStep(z);
      LeapYearsStep(z);
    }
  }

  /** The numbering of the weekdays agrees with the real calendar:
      1 February 2024 was a Thursday. */
  lemma WeekdayAnchor()
    ensures Weekday(Date(2024, 2, 1)) == 4
  {
    DaysBeforeYearClosed(2024);
    assert Ordinal(Date(2024, 2, 1)) == 738917;
  }

  /** Temporal's `with({ day: 1 })`. */
  function FirstOfMonth(d: Date): (r: Date)
    requires d.Valid()
    ensures r.Valid() && r.year == d.year && r.month == d.month && r.day == 1
    ensures Ordinal(d) == Ordinal(r) + d.day - 1
  {
    Date(d.year, d.month, 1)
  }

  /** Temporal's `with({ day: daysInMonth })`. */
  function LastOfMonth(d: Date): (r: Date)
    requires d.Valid()
    ensures r.Valid() && r.year == d.year && r.month == d.month
    ensures r == AddDays(FirstOfMonth(d), DaysInMonth(d.year, d.month) - 1)
    ensures NextDay(r).day == 1 && NextDay(r).month != d.month
  {
    var r := Date(d.year, d.month, DaysInMonth(d.year, d.month));
    AddDaysReaches(FirstOfMonth(d), r);
    MonthStep(d.year, d.month);
    r
  }

  /** Months since year 0, January: the month component of a date as one number. */
  function MonthIndex(d: Date): int {
    12 * d.year + d.month - 1
  }

  /** Temporal's `add({ months: n })` with the default "constrain" overflow:
      the year and month move by n months, and a day that does not exist in
      the target month becomes that month's last day. */
  function AddMonths(d: Date, n: int): (r: Date)
    requires d.Valid()
    ensures r.Valid()
    ensures MonthIndex(r) == MonthIndex(d) + n
    ensures r.day == if d.day <= DaysInMonth(r.year, r.month) then d.day else DaysInMonth(r.year, r.month)
  {
    var total := MonthIndex(d) + n;
    var y, m := total / 12, total % 12 + 1;
    var last := DaysInMonth(y, m);
    Date(y, m, if d.day <= last then d.day else last)
  }

  /** Temporal's `subtract({ months: n })`. */
  function SubtractMonths(d: Date, n: int): (r: Date)
    requires d.Valid()
    ensures r.Valid()
    ensures MonthIndex(r) == MonthIndex(d) - n
    ensures r.day == if d.day <= DaysInMonth(r.year, r.month) then d.day else DaysInMonth(r.year, r.month)
  {
    AddMonths(d, -n)
  }

  /** Stepping one month forward or back rolls the year exactly at December
      and January. */
  lemma {:induction false} OneMonthRollsYear(d: Date)
    requires d.Valid()
    ensures AddMonths(d, 1).year == (if d.month == 12 then d.year + 1 else d.year)
    ensures AddMonths(d, 1).month == (if d.month == 12 then 1 else d.month + 1)
    ensures SubtractMonths(d, 1).year == (if d.month == 1 then d.year - 1 else d.year)
    ensures SubtractMonths(d, 1).month == (if d.month == 1 then 12 else d.month - 1)
  {
    var n, p := AddMonths(d, 1), SubtractMonths(d, 1);
    MonthIndexInjective(n, if d.month == 12 then Date(d.year + 1, 1, 1) else Date(d.year, d.month + 1, 1));
    MonthIndexInjective(p, if d.month == 1 then Date(d.year - 1, 12, 1) else Date(d.year, d.month - 1, 1));
  }

  /** The month index determines year and month. */
  lemma MonthIndexInjective(a: Date, b: Date)
    requires 1 <= a.month <= 12 && 1 <= b.month <= 12
    requires MonthIndex(a) == MonthIndex(b)
    ensures a.year == b.year && a.month == b.month
  {
  }
}
