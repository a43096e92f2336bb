/** Calendars as civil rules: month lengths, leap years and the next day.  The number of a date is
    how many steps to the next day lead to it from the calendar's first day.  The facts about day
    numbers are proved once, for every calendar with twelve months and one leap day. */
module Calendar {
  import opened Arithmetic

  datatype Date = Date(y: int, m: int, d: int)

  /** Lexicographic order. */
  predicate Before(a: Date, b: Date) {
    a.y < b.y || (a.y == b.y && (a.m < b.m || (a.m == b.m && a.d < b.d)))
  }

  datatype Calendar = Calendar(firstYear: int, months: seq<nat>, leapMonth: int, leap: int -> bool)

  predicate WellFormed(c: Calendar) {
    |c.months| == 12 && forall i | 0 <= i < 12 :: 0 < c.months[i]
  }

  function MonthLength(c: Calendar, leap: bool, m: int): nat
    requires WellFormed(c) && 1 <= m <= 12
  {
    c.months[m - 1] + if m == c.leapMonth && leap then 1 else 0
  }

  predicate Valid(c: Calendar, a: Date)
    requires WellFormed(c)
  {
    c.firstYear <= a.y && 1 <= a.m <= 12 && 1 <= a.d <= MonthLength(c, c.leap(a.y), a.m)
  }

  function Next(c: Calendar, a: Date): Date
    requires WellFormed(c) && 1 <= a.m <= 12
  {
    if a.d < MonthLength(c, c.leap(a.y), a.m) then Date(a.y, a.m, a.d + 1)
    else if a.m < 12 then Date(a.y, a.m + 1, 1)
    else Date(a.y + 1, 1, 1)
  }

  /** The date `n` days after the calendar's first day. */
  function DateOf(c: Calendar, n: nat): (a: Date)
    requires WellFormed(c)
    ensures Valid(c, a)
  {
    if n == 0 then Date(c.firstYear, 1, 1) else Next(c, DateOf(c, n - 1))
  }

  /** Days in the first `m` months of a year. */
  function MonthStart(c: Calendar, leap: bool, m: nat): nat
    requires WellFormed(c) && m <= 12
  {
    if m == 0 then 0 else MonthStart(c, leap, m - 1) + MonthLength(c, leap, m)
  }

  /** Days from the beginning of the first year to that of the year `k` years on, or back. */
  function YearStart(c: Calendar, k: int): (n: int)
    requires WellFormed(c)
    ensures 0 <= k ==> 0 <= n
    decreases if k < 0 then -k else k
  {
    if k == 0 then 0
    else if k > 0 then YearStart(c, k - 1) + MonthStart(c, c.leap(c.firstYear + k - 1), 12)
    else YearStart(c, k + 1) - MonthStart(c, c.leap(c.firstYear + k), 12)
  }

  /** The day number of a date, also of one before the first year.  Month 13 and days outside their month
      count on linearly. */
  function DayOf(c: Calendar, a: Date): int
    requires WellFormed(c) && 1 <= a.m <= 13
  {
    YearStart(c, a.y - c.firstYear) + MonthStart(c, c.leap(a.y), a.m - 1) + a.d - 1
  }

  lemma {:induction false} NextDay(c: Calendar, a: Date)
    requires WellFormed(c) && Valid(c, a)
    ensures DayOf(c, Next(c, a)) == DayOf(c, a) + 1
  {
    if a.d == MonthLength(c, c.leap(a.y), a.m) && a.m == 12 {
      assert YearStart(c, a.y + 1 - c.firstYear) ==
             YearStart(c, a.y - c.firstYear) + MonthStart(c, c.leap(a.y), 12);
    }
  }

  /** Day numbers count the steps from the first day. */
  lemma {:induction false} DayOfDate(c: Calendar, n: nat)
    requires WellFormed(c)
    ensures DayOf(c, DateOf(c, n)) == n
  {
    if n > 0 {
      DayOfDate(c, n - 1);
      NextDay(c, DateOf(c, n - 1));
    }
  }

  lemma {:induction false} MonthsIncrease(c: Calendar, leap: bool, m: int, k: int)
    requires WellFormed(c) && 1 <= m < k <= 13
    ensures MonthStart(c, leap, m - 1) + MonthLength(c, leap, m) <= MonthStart(c, leap, k - 1)
    decreases k
  {
    if m < k - 1 { MonthsIncrease(c, leap, m, k - 1); }
  }

  lemma {:induction false} YearsIncrease(c: Calendar, j: nat, k: nat)
    requires WellFormed(c) && j < k
    ensures YearStart(c, j) + MonthStart(c, c.leap(c.firstYear + j), 12) <= YearStart(c, k)
    decreases k
  {
    if j < k - 1 { YearsIncrease(c, j, k - 1); }
  }

  lemma {:induction false} LaterIsGreater(c: Calendar, a: Date, b: Date)
    requires WellFormed(c) && Valid(c, a) && Valid(c, b) && Before(a, b)
    ensures DayOf(c, a) < DayOf(c, b)
  {
    if a.y < b.y {
      MonthsIncrease(c, c.leap(a.y), a.m, 13);
      YearsIncrease(c, a.y - c.firstYear, b.y - c.firstYear);
    } else if a.m < b.m {
      MonthsIncrease(c, c.leap(a.y), a.m, b.m);
    }
  }

  /** Dates and day numbers are ordered alike; in particular, no two dates share a number. */
  lemma DayOrder(c: Calendar, a: Date, b: Date)
    requires WellFormed(c) && Valid(c, a) && Valid(c, b)
    ensures Before(a, b) <==> DayOf(c, a) < DayOf(c, b)
    ensures a == b <==> DayOf(c, a) == DayOf(c, b)
  {
    if Before(a, b) { LaterIsGreater(c, a, b); }
    if Before(b, a) { LaterIsGreater(c, b, a); }
  }

  /** Every valid date is the date of its number. */
  lemma {:induction false} DateOfDay(c: Calendar, a: Date)
    requires WellFormed(c) && Valid(c, a)
    ensures 0 <= DayOf(c, a) && DateOf(c, DayOf(c, a)) == a
  {
    DayOfDate(c, DayOf(c, a));
    DayOrder(c, a, DateOf(c, DayOf(c, a)));
  }

  /** A date found by its year, the start of its month and what is left of the day number. */
  lemma {:induction false} DateAt(c: Calendar, k: nat, leap: bool, m: nat, rest: nat, n: nat)
    requires WellFormed(c) && m < 12 && leap == c.leap(c.firstYear + k)
    requires rest < MonthLength(c, leap, m + 1)
    requires n == YearStart(c, k) + MonthStart(c, leap, m) + rest
    ensures Date(c.firstYear + k, m + 1, rest + 1) == DateOf(c, n)
  {
    DateOfDay(c, Date(c.firstYear + k, m + 1, rest + 1));
  }

  // ---------- the two calendars of the program ----------

  predicate GregorianLeap(y: int) {
    (y % 4 == 0 && y % 100 != 0) || y % 400 == 0
  }

  /** Eight leap years in every cycle of 33: the years at offset 0, 4, ..., 28. */
  predicate JalaliLeap(y: int) {
    (y - 979) % 33 in {0, 4, 8, 12, 16, 20, 24, 28}
  }

  const GREGORIAN_MONTHS: seq<nat> := [31, 28, 31, 30, 31, 30, 31, 31, 30, 31, 30, 31]
  const JALALI_MONTHS: seq<nat> := [31, 31, 31, 31, 31, 31, 30, 30, 30, 30, 30, 29]

  const GREGORIAN := Calendar(1600, GREGORIAN_MONTHS, 2, GregorianLeap)
  const JALALI := Calendar(979, JALALI_MONTHS, 12, JalaliLeap)

  /** How many multiples of `k` there are below `n`, one step at a time. */
  lemma MultiplesBelow(n: int, k: nat)
    requires k > 0
    ensures (n + k) / k == (n + k - 1) / k + if n % k == 0 then 1 else 0
  {
    var q, r := n / k, n % k;
    assert n == k * q + r;
    assert n + k == k * (q + 1) + r;
    QuotientOf(n + k, k, q + 1, r);
    if r == 0 {
      QuotientOf(n + k - 1, k, q, k - 1);
    } else {
      QuotientOf(n + k - 1, k, q + 1, r - 1);
    }
  }

  const GREGORIAN_STARTS: seq<nat> := [0, 31, 59, 90, 120, 151, 181, 212, 243, 273, 304, 334, 365]

  lemma {:induction false} GregorianMonthStart(leap: bool, m: nat)
    requires m <= 12
    ensures MonthStart(GREGORIAN, leap, m) == GREGORIAN_STARTS[m] + if m >= 2 && leap then 1 else 0
  {
    if m > 0 {
      GregorianMonthStart(leap, m - 1);
      assert GREGORIAN_STARTS[m] == GREGORIAN_STARTS[m - 1] + GREGORIAN_MONTHS[m - 1];
    }
  }

  lemma GregorianYearLength(leap: bool)
    ensures MonthStart(GREGORIAN, leap, 12) == if leap then 366 else 365
  {
    GregorianMonthStart(leap, 12);
  }

  lemma {:induction false} JalaliMonthStart(leap: bool, m: nat)
    requires m < 12
    ensures MonthStart(JALALI, leap, m) == if m <= 6 then 31 * m else 30 * m + 6
  {
    if m > 0 { JalaliMonthStart(leap, m - 1); }
  }

  lemma JalaliYearLength(leap: bool)
    ensures MonthStart(JALALI, leap, 12) == if leap then 366 else 365
  {
    JalaliMonthStart(leap, 11);
  }

  /** A leap year is one of the multiples of 4 that are not multiples of 100 but for those of 400. */
  lemma LeapCount(n: int)
    ensures (if GregorianLeap(1600 + n) then 1 else 0) ==
            (if n % 4 == 0 then 1 else 0) - (if n % 100 == 0 then 1 else 0) + (if n % 400 == 0 then 1 else 0)
  {
    var q, r := n / 400, n % 400;
    QuotientOf(n + 1600, 400, q + 4, r);
    QuotientOf(n, 100, 4 * q + r / 100, r % 100);
    QuotientOf(n + 1600, 100, 16 + 4 * q + r / 100, r % 100);
    QuotientOf(n, 4, 100 * q + r / 4, r % 4);
    QuotientOf(n + 1600, 4, 400 + 100 * q + r / 4, r % 4);
  }

  /** The days before a Gregorian year, in one formula. */
  function GregorianDays(gy: int): int {
    365 * gy + (gy + 3) / 4 - (gy + 99) / 100 + (gy + 399) / 400
  }

  lemma GregorianDaysStep(gy: int)
    ensures GregorianDays(gy + 1) == GregorianDays(gy) + MonthStart(GREGORIAN, GregorianLeap(1600 + gy), 12)
  {
    MultiplesBelow(gy, 4);
    MultiplesBelow(gy, 100);
    MultiplesBelow(gy, 400);
    LeapCount(gy);
    GregorianYearLength(GregorianLeap(1600 + gy));
  }

  lemma {:induction false} GregorianClosedForm(gy: int)
    ensures GregorianDays(gy) == YearStart(GREGORIAN, gy)
    decreases if gy < 0 then -gy else gy
  {
    hide GregorianDays, GregorianLeap, MonthStart;
    if gy > 0 {
      GregorianClosedForm(gy - 1);
      GregorianDaysStep(gy - 1);
    } else if gy < 0 {
      GregorianClosedForm(gy + 1);
      GregorianDaysStep(gy);
    } else {
      GregorianDaysZero();
    }
  }

  lemma GregorianDaysZero()
    ensures GregorianDays(0) == 0
  {
  }

  lemma JalaliLeapCount(p: int, r: nat)
    requires r < 33
    ensures JalaliLeap(979 + (33 * p + r)) <==> (r % 4 == 0 && r < 32)
  {
    QuotientOf(33 * p + r, 33, p, r);
  }

  /** The days before a Jalali year, in one formula. */
  function JalaliDays(jy: int): int {
    365 * jy + (jy / 33) * 8 + (jy % 33 + 3) / 4
  }

  lemma JalaliDaysStep(jy: int)
    ensures JalaliDays(jy + 1) == JalaliDays(jy) + MonthStart(JALALI, JalaliLeap(979 + jy), 12)
  {
    var p, r := jy / 33, jy % 33;
    assert jy == 33 * p + r;
    JalaliLeapCount(p, r);
    JalaliYearLength(JalaliLeap(979 + jy));
    if r == 32 {
      QuotientOf(jy + 1, 33, p + 1, 0);
    } else {
      QuotientOf(jy + 1, 33, p, r + 1);
      MultiplesBelow(r, 4);
    }
  }

  lemma {:induction false} JalaliClosedForm(jy: int)
    ensures JalaliDays(jy) == YearStart(JALALI, jy)
    decreases if jy < 0 then -jy else jy
  {
    hide JalaliDays, JalaliLeap, MonthStart;
    if jy > 0 {
      JalaliClosedForm(jy - 1);
      JalaliDaysStep(jy - 1);
    } else if jy < 0 {
      JalaliClosedForm(jy + 1);
      JalaliDaysStep(jy);
    } else {
      JalaliDaysZero();
    }
  }

  lemma JalaliDaysZero()
    ensures JalaliDays(0) == 0
  {
  }
}
