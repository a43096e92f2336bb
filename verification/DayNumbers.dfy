/** The calendar conversions of day13.c, step by step as the program computes them, against the
    civil rules of the two calendars. */
module DayNumbers {
  import opened Arithmetic
  import opened Calendar
  import opened DayCounts

  // ---------- day numbers to dates ----------

  /** Division rounding up, as the program writes it. */
  lemma RoundedUp(n: nat, k: nat, q: nat, r: nat)
    requires r < k && n == k * q + r
    ensures (n + k - 1) / k == q + if r > 0 then 1 else 0
  {
    if r > 0 {
      assert n + k - 1 == k * (q + 1) + (r - 1);
      QuotientOf(n + k - 1, k, q + 1, r - 1);
    } else {
      QuotientOf(n + k - 1, k, q, k - 1);
    }
  }

  /** Days before a year, by its place in the cycles of 400, 100 and 4 years. */
  lemma GregorianCycles(c: nat, k: nat, q: nat, s: nat)
    requires k < 4 && q < 25 && s < 4
    ensures YearStart(GREGORIAN, 400 * c + 100 * k + 4 * q + s) ==
            146097 * c + 36524 * k + 1461 * q + 365 * s +
            (if s > 0 then 1 else 0) - (if q > 0 || s > 0 then 1 else 0) +
            (if k > 0 || q > 0 || s > 0 then 1 else 0)
  {
    var gy := 400 * c + 100 * k + 4 * q + s;
    assert (gy + 3) / 4 == 100 * c + 25 * k + q + if s > 0 then 1 else 0 by {
      RoundedUp(gy, 4, 100 * c + 25 * k + q, s);
    }
    assert (gy + 99) / 100 == 4 * c + k + if 4 * q + s > 0 then 1 else 0 by {
      RoundedUp(gy, 100, 4 * c + k, 4 * q + s);
    }
    assert (gy + 399) / 400 == c + if 100 * k + 4 * q + s > 0 then 1 else 0 by {
      RoundedUp(gy, 400, c, 100 * k + 4 * q + s);
    }
    GregorianClosedForm(gy);
  }

  lemma GregorianLeapInCycles(c: nat, k: nat, q: nat, s: nat)
    requires k < 4 && q < 25 && s < 4
    ensures GregorianLeap(1600 + (400 * c + 100 * k + 4 * q + s)) <==> s == 0 && (q > 0 || k == 0)
  {
    var gy := 400 * c + 100 * k + 4 * q + s;
    LeapShift(gy);
    QuotientOf(gy, 4, 100 * c + 25 * k + q, s);
    QuotientOf(gy, 100, 4 * c + k, 4 * q + s);
    QuotientOf(gy, 400, c, 100 * k + 4 * q + s);
  }

  /** Day `day` of the year `s` of the four years `q` of the century `k` of the 400 years `c` is
      the day `n`; the first years of the last three centuries are short of a leap day. */
  ghost predicate Placed(n: nat, c: nat, k: nat, q: nat, s: nat, day: nat, leap: bool) {
    && k < 4 && q < 25 && s < 4
    && n == 146097 * c + 36524 * k + 1461 * q + 365 * s + day +
            (if s > 0 then 1 else 0) - (if q > 0 || s > 0 then 1 else 0) +
            (if k > 0 || q > 0 || s > 0 then 1 else 0)
    && (leap <==> s == 0 && (q > 0 || k == 0))
    && (day < 365 || (leap && day == 365))
  }

  lemma PlacedIsRight(n: nat, c: nat, k: nat, q: nat, s: nat, day: nat, leap: bool)
    requires Placed(n, c, k, q, s, day, leap)
    ensures var gy := 400 * c + 100 * k + 4 * q + s;
            && YearStart(GREGORIAN, gy) + day == n && leap == GregorianLeap(1600 + gy)
            && day < MonthStart(GREGORIAN, leap, 12)
  {
    GregorianCycles(c, k, q, s);
    GregorianLeapInCycles(c, k, q, s);
    GregorianYearLength(leap);
  }

  /** The year, the day of the year and the leap flag that the cascade of divisions arrives at, with the
      signed division that `d13_j2g` uses. */
  method SplitGregorianYear(n: int) returns (gy: int, day: int, leap: bool, ghost c: nat, ghost k: nat, ghost q: nat, ghost s: nat)
    ensures 0 <= n ==>
              0 <= day && Placed(n, c, k, q, s, day, leap) && gy == 1600 + (400 * c + 100 * k + 4 * q + s)
    ensures n < 0 ==>
              var t := (-n) % 146097; gy == 1600 - 400 * ((-n) / 146097) - 4 * (t / 1461) && day == -(t % 1461)
  {
    day := n;
    gy := 1600 + 400 * Quot(day, 146097);
    day := Rem(day, 146097);
    leap := true;
    c, k, q, s := if n < 0 then 0 else n / 146097, 0, 0, 0;
    if day >= 36525 {
      day := day - 1;
      gy := gy + 100 * (day / 36524);
      k := day / 36524;
      day := day % 36524;
      if day >= 365 {
        day := day + 1;
      } else {
        leap := false;
      }
    }
    assert 0 <= n ==> n == 146097 * c + 36524 * k + day + if k > 0 && day < 365 then 1 else 0;
    gy := gy + 4 * Quot(day, 1461);
    q := if day < 0 then 0 else day / 1461;
    day := Rem(day, 1461);
    if day >= 366 {
      leap := false;
      day := day - 1;
      gy := gy + day / 365;
      s := day / 365;
      day := day % 365;
    }
  }

  /** The month search of `d13_jdayno2gdate` and `d13_j2g`.  It has no bound of its own; on the
      days of a year it never leaves the month table. */
  method FindGregorianMonth(dayOfYear: int, leap: bool) returns (i: nat, day: int)
    requires dayOfYear < MonthStart(GREGORIAN, leap, 12)
    ensures 0 <= dayOfYear ==>
              && i < 12 && 0 <= day < MonthLength(GREGORIAN, leap, i + 1)
              && MonthStart(GREGORIAN, leap, i) + day == dayOfYear
    ensures dayOfYear <= 0 ==> i == 0 && day == dayOfYear
  {
    day := dayOfYear;
    i := 0;
    while day >= GREGORIAN_MONTHS[i] + (if i == 1 && leap then 1 else 0)
      invariant i < 12 && (dayOfYear <= 0 ==> i == 0) && (0 <= dayOfYear ==> 0 <= day)
      invariant MonthStart(GREGORIAN, leap, i) + day == dayOfYear
      decreases 12 - i
    {
      day := day - (GREGORIAN_MONTHS[i] + if i == 1 && leap then 1 else 0);
      i := i + 1;
    }
  }

  /** What the program makes of a negative number. */
  function EarlyGregorian(n: int): Date
    requires n < 0
  {
    var t := (-n) % 146097;
    Date(1600 - 400 * ((-n) / 146097) - 4 * (t / 1461), 1, 1 - t % 1461)
  }

  /** It is a day of January that is not positive but for one number in four years, and the right day only
      in the last hundred years of each four hundred. */
  lemma EarlyGregorianDay(n: int)
    requires n < 0
    ensures DayOf(GREGORIAN, EarlyGregorian(n)) == n + (-n) % 146097 / 36525
    ensures EarlyGregorian(n).d == 1 <==> (-n) % 146097 % 1461 == 0
  {
    hide YearStart, MonthStart;
    var c, t := (-n) / 146097, (-n) % 146097;
    var q, u := t / 1461, t % 1461;
    EarlyYear(c, q / 25, q % 25);
    QuotientOf(t, 36525, q / 25, 1461 * (q % 25) + u);
    NothingBefore(GREGORIAN, GregorianLeap(EarlyGregorian(n).y));
  }

  lemma NothingBefore(c: Calendar, leap: bool)
    requires WellFormed(c)
    ensures MonthStart(c, leap, 0) == 0
  {
  }

  lemma EarlyYear(c: int, j: int, i: int)
    requires 0 <= i < 25 && 0 <= j < 4
    ensures YearStart(GREGORIAN, -400 * c - 4 * (25 * j + i)) == -146097 * c - 1461 * (25 * j + i) + j
  {
    hide YearStart;
    var gy := -400 * c - 4 * (25 * j + i);
    GregorianClosedForm(gy);
    QuotientOf(gy + 3, 4, -100 * c - (25 * j + i), 3);
    QuotientOf(gy + 99, 100, -4 * c - j, 99 - 4 * i);
    QuotientOf(gy + 399, 400, -c, 399 - 4 * (25 * j + i));
  }

  lemma {:induction false} YearAtLeast(leap: bool)
    ensures MonthStart(GREGORIAN, leap, 12) > 0
  {
    GregorianYearLength(leap);
  }

  /** The date that the closing part of `d13_jdayno2gdate` and `d13_j2g` finds for a day number. */
  method GregorianFromDay(n: int) returns (a: Date)
    ensures a == if 0 <= n then DateOf(GREGORIAN, n) else EarlyGregorian(n)
  {
    hide YearStart, MonthStart, Placed, DateOf;
    var gy, dayOfYear, leap, c, k, q, s := SplitGregorianYear(n);
    if 0 <= n {
      PlacedIsRight(n, c, k, q, s, dayOfYear, leap);
    }
    YearAtLeast(leap);
    var i, day := FindGregorianMonth(dayOfYear, leap);
    a := Date(gy, i + 1, day + 1);
    if 0 <= n {
      DateAt(GREGORIAN, gy - 1600, leap, i, day, n);
    }
  }

  /** `d13_jdayno2gdate` */
  method GregorianFromJalaliDay(n: nat) returns (a: Date)
    ensures Valid(GREGORIAN, a) && DayOf(GREGORIAN, a) == n + 79
  {
    a := GregorianFromDay(n + 79);
    DayOfDate(GREGORIAN, n + 79);
  }

  lemma JalaliCycles(p: nat, q: nat, s: nat)
    requires s < 4 && 4 * q + s < 33
    ensures YearStart(JALALI, 33 * p + 4 * q + s) == 12053 * p + 1461 * q + 365 * s + if s > 0 then 1 else 0
    ensures JalaliLeap(979 + (33 * p + 4 * q + s)) <==> s == 0 && q < 8
  {
    var jy := 33 * p + 4 * q + s;
    JalaliClosedForm(jy);
    QuotientOf(jy, 33, p, 4 * q + s);
    RoundedUp(4 * q + s, 4, q, s);
    JalaliLeapCount(p, 4 * q + s);
    QuotientOf(4 * q + s, 4, q, s);
  }

  /** The year and the day of the year in the cycles of 33 and 4 years, with the signed division
      that `d13_g2j` uses before the first day. */
  method SplitJalaliYear(n: int) returns (jy: int, day: int, ghost p: nat, ghost q: nat, ghost s: nat)
    ensures 0 <= n ==>
              && s < 4 && 4 * q + s < 33 && jy == 979 + (33 * p + 4 * q + s) && 0 <= day
              && n == 12053 * p + 1461 * q + 365 * s + day + (if s > 0 then 1 else 0)
              && (day < 365 || (day == 365 && s == 0 && q < 8))
    ensures n < 0 ==>
              var t := (-n) % 12053; jy == 979 - 33 * ((-n) / 12053) - 4 * (t / 1461) && day == -(t % 1461)
  {
    var np := Quot(n, 12053);
    day := Rem(n, 12053);
    jy := 979 + 33 * np + 4 * Quot(day, 1461);
    p, q, s := if n < 0 then 0 else np, if day < 0 then 0 else day / 1461, 0;
    day := Rem(day, 1461);
    if day >= 366 {
      jy := jy + (day - 1) / 365;
      s := (day - 1) / 365;
      day := (day - 1) % 365;
    }
  }

  /** The month search of `d13_gdayno2jdate` and `d13_g2j`, which stops at the last month. */
  method FindJalaliMonth(dayOfYear: int, ghost leap: bool) returns (i: nat, day: int)
    requires dayOfYear < MonthStart(JALALI, leap, 12)
    ensures 0 <= dayOfYear ==>
              i < 12 && 0 <= day < MonthLength(JALALI, leap, i + 1) && MonthStart(JALALI, leap, i) + day == dayOfYear
    ensures dayOfYear <= 0 ==> i == 0 && day == dayOfYear
  {
    day := dayOfYear;
    i := 0;
    while i < 11 && day >= JALALI_MONTHS[i]
      invariant i < 12
      invariant MonthStart(JALALI, leap, i) + day == dayOfYear && (0 <= dayOfYear ==> 0 <= day)
      invariant dayOfYear <= 0 ==> i == 0
    {
      day := day - JALALI_MONTHS[i];
      i := i + 1;
    }
  }

  /** What the program makes of a negative number. */
  function EarlyJalali(n: int): Date
    requires n < 0
  {
    var t := (-n) % 12053;
    Date(979 - 33 * ((-n) / 12053) - 4 * (t / 1461), 1, 1 - t % 1461)
  }

  /** It is a day of the first month that is not positive but for one number in four years, and the right day
      only in the last four years of each 33. */
  lemma EarlyJalaliDay(n: int)
    requires n < 0
    ensures DayOf(JALALI, EarlyJalali(n)) == n + if (-n) % 12053 < 1461 then 0 else 1
    ensures EarlyJalali(n).d == 1 <==> (-n) % 12053 % 1461 == 0
  {
    var p, t := (-n) / 12053, (-n) % 12053;
    var q, u := t / 1461, t % 1461;
    assert -n == 12053 * p + t && t == 1461 * q + u;
    var jy := -33 * p - 4 * q;
    JalaliClosedForm(jy);
    if q == 0 {
      QuotientOf(jy, 33, -p, 0);
    } else {
      QuotientOf(jy, 33, -p - 1, 33 - 4 * q);
    }
  }

  /** The date that the closing part of `d13_gdayno2jdate` and `d13_g2j` finds for a day number. */
  method JalaliFromDay(n: int) returns (a: Date)
    ensures a == if 0 <= n then DateOf(JALALI, n) else EarlyJalali(n)
  {
    hide YearStart, MonthStart, DateOf;
    var jy, dayOfYear, p, q, s := SplitJalaliYear(n);
    ghost var leap := s == 0 && q < 8;
    JalaliYearLength(leap);
    var i, day := FindJalaliMonth(dayOfYear, leap);
    a := Date(jy, i + 1, day + 1);
    if 0 <= n {
      JalaliCycles(p, q, s);
      DateAt(JALALI, jy - 979, leap, i, day, n);
    }
  }

  /** `d13_gdayno2jdate`, where a number below 79 wraps around. */
  method JalaliFromGregorianDay(n: nat, w: nat) returns (a: Date)
    requires Width(w) && n < w
    ensures Valid(JALALI, a) && DayOf(JALALI, a) == n - 79 + if n < 79 then w else 0
  {
    var j := (n - 79) % w;
    QuotientOf(n - 79, w, if n < 79 then -1 else 0, n - 79 + if n < 79 then w else 0);
    a := JalaliFromDay(j);
    DayOfDate(JALALI, j);
  }

  // ---------- dates to dates ----------

  /** `d13_g2j`: below number 79, which is 20 March 1600, the answer is not the date. */
  method GregorianToJalali(y: int, m: int, d: int) returns (a: Date)
    requires m <= 13
    ensures var n := DayOf(GREGORIAN, Date(y, FromFirst(m), d)) + GregorianError(y - 1600) - 79;
            if 0 <= n then Valid(JALALI, a) && DayOf(JALALI, a) == n else a == EarlyJalali(n)
  {
    hide YearStart, MonthStart, GregorianError, EarlyJalali, DateOf;
    var n := CountGregorianDays(y, m, d);
    a := JalaliFromDay(n - 79);
    if 79 <= n { DayOfDate(JALALI, n - 79); }
  }

  /** `d13_j2g` */
  method JalaliToGregorian(y: int, m: int, d: int) returns (a: Date)
    requires m <= 13
    ensures var n := DayOf(JALALI, Date(y, FromFirst(m), d)) + JalaliError(y - 979) - Uncounted(y, m) + 79;
            if 0 <= n then Valid(GREGORIAN, a) && DayOf(GREGORIAN, a) == n else a == EarlyGregorian(n)
  {
    hide YearStart, MonthStart, JalaliError, Uncounted, EarlyGregorian, DateOf;
    var n := CountJalaliDays(y, m, d);
    a := GregorianFromDay(n + 79);
    if 0 <= n + 79 { DayOfDate(GREGORIAN, n + 79); }
  }

  /** `d13_jdayno2jdate`, which takes a detour through the Gregorian calendar. */
  method JalaliFromJalaliDay(n: nat) returns (a: Date)
    ensures Valid(JALALI, a) && DayOf(JALALI, a) == n
  {
    var g := GregorianFromJalaliDay(n);
    NoErrors(g.y, g.m);
    a := GregorianToJalali(g.y, g.m, g.d);
  }

  // ---------- the conversions as maps between the calendars ----------

  /** The first day on which both calendars are defined. */
  const FIRST_COMMON_DAY := Date(1600, 3, 20)

  lemma {:induction false} FirstCommonDayNumber()
    ensures Valid(GREGORIAN, FIRST_COMMON_DAY) && DayOf(GREGORIAN, FIRST_COMMON_DAY) == 79
    ensures DateOf(GREGORIAN, 79) == FIRST_COMMON_DAY
  {
    GregorianMonthStart(GregorianLeap(1600), 2);
    DateOfDay(GREGORIAN, FIRST_COMMON_DAY);
  }

  /** The common range is everything from 20 March 1600 on. */
  lemma CommonRange(a: Date)
    requires Valid(GREGORIAN, a)
    ensures 79 <= DayOf(GREGORIAN, a) <==> !Before(a, FIRST_COMMON_DAY)
  {
    FirstCommonDayNumber();
    DayOrder(GREGORIAN, a, FIRST_COMMON_DAY);
  }

  lemma BeforeTheFirstDay(n: int)
    requires -79 <= n < 0
    ensures var a := EarlyJalali(n); a.y == 979 && a.m == 1 && DayOf(JALALI, a) == n && !Valid(JALALI, a)
  {
  }

  /** Dates of the calendars proper are counted without error. */
  lemma NoErrors(y: int, m: int)
    requires m <= 12
    ensures 1600 <= y ==> GregorianError(y - 1600) == 0
    ensures 979 <= y ==> JalaliError(y - 979) == 0
    ensures Uncounted(y, m) == 0
  {
    NoErrorSince(y);
  }

  /** `d13_j2g` undoes `d13_g2j` on every date from 1 January 1600 on, although before 20 March 1600
      what lies between them is no date. */
  method ConvertThereAndBack(a: Date) returns (between: Date, back: Date)
    requires Valid(GREGORIAN, a)
    ensures back == a
    ensures Valid(JALALI, between) <==> 79 <= DayOf(GREGORIAN, a)
  {
    hide GregorianError, JalaliError, Uncounted, EarlyJalali, EarlyGregorian, YearStart, MonthStart;
    DateOfDay(GREGORIAN, a);
    NoErrors(a.y, a.m);
    between := GregorianToJalali(a.y, a.m, a.d);
    if DayOf(GREGORIAN, a) < 79 {
      BeforeTheFirstDay(DayOf(GREGORIAN, a) - 79);
    }
    NoErrors(between.y, between.m);
    back := JalaliToGregorian(between.y, between.m, between.d);
    DayOrder(GREGORIAN, a, back);
  }

  /** `d13_g2j` undoes `d13_j2g` on every Jalali date from 1 Farvardin 979 on. */
  method ConvertBackAndThere(b: Date) returns (between: Date, back: Date)
    requires Valid(JALALI, b)
    ensures back == b && Valid(GREGORIAN, between)
  {
    hide GregorianError, JalaliError, Uncounted, EarlyJalali, EarlyGregorian, YearStart, MonthStart;
    DateOfDay(JALALI, b);
    NoErrors(b.y, b.m);
    between := JalaliToGregorian(b.y, b.m, b.d);
    NoErrors(between.y, between.m);
    back := GregorianToJalali(between.y, between.m, between.d);
    DayOrder(JALALI, b, back);
  }

  /** `a'` and `b'` are dates that stand in the same order as `a` and `b`, and follow each other when
      they do. */
  ghost predicate InStep(c: Calendar, e: Calendar, a: Date, b: Date, a': Date, b': Date)
    requires WellFormed(c) && WellFormed(e) && Valid(c, a)
  {
    && Valid(e, a') && Valid(e, b')
    && (Before(a, b) <==> Before(a', b'))
    && (b == Next(c, a) <==> b' == Next(e, a'))
  }

  lemma SameOrder(c: Calendar, e: Calendar, a: Date, b: Date, a': Date, b': Date)
    requires WellFormed(c) && WellFormed(e) && Valid(c, a) && Valid(c, b) && Valid(e, a') && Valid(e, b')
    requires DayOf(c, b) - DayOf(c, a) == DayOf(e, b') - DayOf(e, a')
    ensures InStep(c, e, a, b, a', b')
  {
    DayOrder(c, a, b);
    DayOrder(e, a', b');
    NextDay(c, a);
    NextDay(e, a');
    DayOrder(c, b, Next(c, a));
    DayOrder(e, b', Next(e, a'));
  }

  /** `d13_g2j` keeps the order of dates and takes the next day to the next day, on exactly the dates
      on which both calendars are defined ... */
  method ConvertInOrder(a: Date, b: Date) returns (a': Date, b': Date)
    requires Valid(GREGORIAN, a) && Valid(GREGORIAN, b)
    requires !Before(a, FIRST_COMMON_DAY) && !Before(b, FIRST_COMMON_DAY)
    ensures InStep(GREGORIAN, JALALI, a, b, a', b')
  {
    hide InStep, Next, Before, MonthStart, YearStart, DateOf, GregorianError, JalaliError, Uncounted, EarlyJalali, EarlyGregorian;
    CommonRange(a);
    CommonRange(b);
    NoErrors(a.y, a.m);
    NoErrors(b.y, b.m);
    a' := GregorianToJalali(a.y, a.m, a.d);
    b' := GregorianToJalali(b.y, b.m, b.d);
    SameOrder(GREGORIAN, JALALI, a, b, a', b');
  }

  /** ... and so does `d13_j2g`. */
  method ConvertBackInOrder(a: Date, b: Date) returns (a': Date, b': Date)
    requires Valid(JALALI, a) && Valid(JALALI, b)
    ensures InStep(JALALI, GREGORIAN, a, b, a', b')
  {
    hide InStep, Next, Before, MonthStart, YearStart, DateOf, GregorianError, JalaliError, Uncounted, EarlyJalali, EarlyGregorian;
    DateOfDay(JALALI, a);
    DateOfDay(JALALI, b);
    NoErrors(a.y, a.m);
    NoErrors(b.y, b.m);
    a' := JalaliToGregorian(a.y, a.m, a.d);
    b' := JalaliToGregorian(b.y, b.m, b.d);
    SameOrder(JALALI, GREGORIAN, a, b, a', b');
  }

  /** A year has at least 365 days. */
  lemma GregorianYearBound(a: Date)
    requires Valid(GREGORIAN, a)
    ensures 365 * (a.y - 1600) <= DayOf(GREGORIAN, a)
  {
    hide YearStart, MonthStart;
    GregorianClosedForm(a.y - 1600);
  }

  lemma JalaliYearBound(a: Date)
    requires Valid(JALALI, a)
    ensures 365 * (a.y - 979) <= DayOf(JALALI, a)
  {
    hide YearStart, MonthStart;
    JalaliClosedForm(a.y - 979);
  }

  /** `d13_gdayno` undoes `d13_jdayno2gdate`, up to the offset and the width of its result. */
  method GregorianNumberThereAndBack(n: nat, w: nat) returns (g: nat)
    requires Width(w) && n + 79 < w
    ensures g == (n + 79) % UINT32
  {
    hide YearStart, MonthStart, Width;
    WidthIs(w);
    var a := GregorianFromJalaliDay(n);
    GregorianYearBound(a);
    g := GregorianDayNumber(a.y, a.m, a.d, w);
  }

  /** `d13_jdayno` undoes `d13_jdayno2jdate` likewise. */
  method JalaliNumberThereAndBack(n: nat, w: nat) returns (j: nat)
    requires Width(w) && n + 79 < w
    ensures j == n % UINT32
  {
    hide YearStart, MonthStart, Width;
    WidthIs(w);
    var b := JalaliFromJalaliDay(n);
    JalaliYearBound(b);
    j := JalaliDayNumber(b.y, b.m, b.d, w);
  }

  /** Conversely, every date of the common range is found again from its number, as long as the number
      has not been cut to 32 bits. */
  method GregorianDateThereAndBack(a: Date, w: nat) returns (back: Date)
    requires Width(w) && Valid(GREGORIAN, a) && !Before(a, FIRST_COMMON_DAY) && DayOf(GREGORIAN, a) < UINT32
    ensures back == a
  {
    hide MonthStart, YearStart, Before, Width;
    WidthIs(w);
    CommonRange(a);
    GregorianYearBound(a);
    var n := GregorianDayNumber(a.y, a.m, a.d, w);
    back := GregorianFromJalaliDay(n - 79);
    DayOrder(GREGORIAN, a, back);
  }

  /** The detour gives what the direct inverse gives, and both find the date again. */
  method JalaliDateThereAndBack(b: Date, w: nat) returns (back: Date, direct: Date)
    requires Width(w) && Valid(JALALI, b) && DayOf(JALALI, b) < UINT32 && DayOf(JALALI, b) + 79 < w
    ensures back == direct == b
  {
    hide MonthStart, YearStart, Before, Width;
    WidthIs(w);
    DateOfDay(JALALI, b);
    JalaliYearBound(b);
    var n := JalaliDayNumber(b.y, b.m, b.d, w);
    back := JalaliFromJalaliDay(n);
    direct := JalaliFromGregorianDay(n + 79, w);
    DayOrder(JALALI, b, back);
    DayOrder(JALALI, b, direct);
  }
}
