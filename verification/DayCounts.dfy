/** The day numbers of day13.c, for every year: the sums that `d13_g2j` and `d13_j2g` form from signed numbers,
    and those that `d13_gdayno` and `d13_jdayno` form from unsigned ones. */
module DayCounts {
  import opened Arithmetic
  import opened Calendar

  // ---------- signed numbers ----------

  /** Signed division in C truncates toward zero. */
  function Quot(a: int, b: int): int
    requires b > 0
  {
    if a >= 0 then a / b else -((-a) / b)
  }

  function Rem(a: int, b: int): int
    requires b > 0
  {
    if a >= 0 then a % b else -((-a) % b)
  }

  /** By how much that is above the quotient rounded down. */
  function Excess(a: int, b: int): int
    requires b > 0
  {
    if a < 0 && a % b != 0 then 1 else 0
  }

  lemma QuotIs(a: int, b: int)
    requires b > 0
    ensures Quot(a, b) == a / b + Excess(a, b)
    ensures Rem(a, b) == a - b * Quot(a, b) && (Rem(a, b) == 0 <==> a % b == 0)
  {
    if a < 0 {
      var q, r := (-a) / b, (-a) % b;
      assert -a == b * q + r;
      if r == 0 {
        assert a == b * (-q) + 0;
        QuotientOf(a, b, -q, 0);
      } else {
        assert a == b * (-q - 1) + (b - r);
        QuotientOf(a, b, -q - 1, b - r);
      }
      assert b * (-q) == -(b * q);
    }
  }

  lemma LeapShift(gy: int)
    ensures GregorianLeap(1600 + gy) <==> GregorianLeap(gy)
  {
    QuotientOf(gy + 1600, 400, gy / 400 + 4, gy % 400);
    QuotientOf(gy + 1600, 100, gy / 100 + 16, gy % 100);
    QuotientOf(gy + 1600, 4, gy / 4 + 400, gy % 4);
  }

  /** A month before the first is taken for the first. */
  function FromFirst(m: int): int {
    if m < 1 then 1 else m
  }

  /** By how much the program's count is off in years before 1600, where division rounds up. */
  function GregorianError(gy: int): int {
    Excess(gy + 3, 4) - Excess(gy + 99, 100) + Excess(gy + 399, 400)
  }

  function JalaliError(jy: int): int {
    var r := (-jy) % 33;
    if jy < 0 && r >= 5 && (r % 4 == 1 || r % 4 == 2) then 1 else 0
  }

  lemma JalaliErrorIs(jy: int)
    ensures Quot(jy, 33) * 8 + Quot(Rem(jy, 33) + 3, 4) == (jy / 33) * 8 + (jy % 33 + 3) / 4 + JalaliError(jy)
  {
    QuotIs(jy, 33);
    if jy < 0 {
      var q, r := (-jy) / 33, (-jy) % 33;
      assert -jy == 33 * q + r;
      if r == 0 {
        QuotientOf(jy, 33, -q, 0);
      } else {
        QuotientOf(jy, 33, -q - 1, 33 - r);
      }
    }
  }

  /** The sum that `d13_gdayno` and `d13_g2j` share, as `d13_g2j` forms it from signed numbers. */
  method CountGregorianDays(y: int, m: int, d: int) returns (n: int)
    requires m <= 13
    ensures n == DayOf(GREGORIAN, Date(y, FromFirst(m), d)) + GregorianError(y - 1600)
  {
    hide Quot, Excess, YearStart;
    var gy, gm, gd := y - 1600, m - 1, d - 1;
    n := 365 * gy + Quot(gy + 3, 4) - Quot(gy + 99, 100) + Quot(gy + 399, 400);
    QuotIs(gy + 3, 4);
    QuotIs(gy + 99, 100);
    QuotIs(gy + 399, 400);
    GregorianClosedForm(gy);
    ghost var days := YearStart(GREGORIAN, gy) + GregorianError(gy);
    assert n == days;
    n := AddMonths(n, gm, GREGORIAN_MONTHS, GREGORIAN);
    LeapShift(gy);
    QuotIs(gy, 4);
    QuotIs(gy, 100);
    QuotIs(gy, 400);
    if 0 <= gm {
      GregorianMonthStart(false, gm);
      GregorianMonthStart(GregorianLeap(y), gm);
    }
    if gm > 1 && ((Rem(gy, 4) == 0 && Rem(gy, 100) != 0) || Rem(gy, 400) == 0) {
      n := n + 1;
    }
    n := n + gd;
  }

  /** The loop over the months of a common year. */
  method AddMonths(n0: int, months: int, table: seq<nat>, ghost c: Calendar) returns (n: int)
    requires WellFormed(c) && table == c.months && months <= 12
    ensures n == n0 + MonthStart(c, false, if months < 0 then 0 else months)
  {
    n := n0;
    var i := 0;
    while i < months
      invariant 0 <= i && (i <= months || i == 0)
      invariant n == n0 + MonthStart(c, false, i)
    {
      n := n + table[i];
      i := i + 1;
    }
  }

  /** A leap day that the loop does not count, at the end of the last month. */
  function Uncounted(y: int, m: int): int {
    if m == 13 && JalaliLeap(y) then 1 else 0
  }

  /** The sum that `d13_jdayno` and `d13_j2g` share, as `d13_j2g` forms it from signed numbers. */
  method CountJalaliDays(y: int, m: int, d: int) returns (n: int)
    requires m <= 13
    ensures n == DayOf(JALALI, Date(y, FromFirst(m), d)) + JalaliError(y - 979) - Uncounted(y, m)
  {
    hide Quot, Rem, YearStart, JalaliError;
    var jy, jm, jd := y - 979, m - 1, d - 1;
    n := 365 * jy + Quot(jy, 33) * 8 + Quot(Rem(jy, 33) + 3, 4);
    JalaliErrorIs(jy);
    JalaliClosedForm(jy);
    n := AddMonths(n, jm, JALALI_MONTHS, JALALI);
    if 1 <= m {
      JalaliMonths(y, m);
    }
    n := n + jd;
  }

  lemma NoErrorSince(y: int)
    ensures 1597 <= y ==> GregorianError(y - 1600) == 0
    ensures 975 <= y ==> JalaliError(y - 979) == 0
  {
  }

  // ---------- unsigned numbers ----------

  /** One more than an unsigned long can be. */
  predicate Width(w: nat) {
    w == 0x1_0000_0000 || w == 0x1_0000_0000_0000_0000
  }

  lemma WidthIs(w: nat)
    requires Width(w)
    ensures w >= UINT32 && FirstRightYear(w) <= 1600
  {
  }

  lemma CutTwice(x: int, w: nat)
    requires Width(w)
    ensures x % w % UINT32 == x % UINT32
  {
    var q, r := x / w, x % w;
    assert x == w * q + r;
    var p := w / UINT32;
    assert w == UINT32 * p;
    assert x == UINT32 * (p * q + r / UINT32) + r % UINT32 by {
      assert w * q == UINT32 * (p * q);
    }
    QuotientOf(x, UINT32, p * q + r / UINT32, r % UINT32);
  }

  /** A number that is not a multiple of 2^32, by what it exceeds one. */
  lemma NotCut(x: int, z: int, r: int)
    requires x == UINT32 * z + r && 0 < r < UINT32
    ensures x % UINT32 != 0
  {
    QuotientOf(x, UINT32, z, r);
  }

  lemma CutEqual(x: int, y: int)
    ensures x % UINT32 == y % UINT32 <==> (x - y) % UINT32 == 0
  {
    var p, q := x / UINT32, y / UINT32;
    assert x - y == UINT32 * (p - q) + (x % UINT32 - y % UINT32);
    if x % UINT32 >= y % UINT32 {
      QuotientOf(x - y, UINT32, p - q, x % UINT32 - y % UINT32);
    } else {
      QuotientOf(x - y, UINT32, p - q - 1, UINT32 + x % UINT32 - y % UINT32);
    }
  }

  /** One term of the sum for a year `k` years before 1600, rounded up in unsigned numbers. */
  function Term(k: int, p: nat, w: nat): int
    requires p > 0 && w > 0
  {
    (w - k + p - 1) % w / p
  }

  lemma TermIs(k: int, p: nat, w: nat)
    requires 0 < k < w && 0 < p < w
    ensures k < p ==> Term(k, p, w) == (p - 1 - k) / p == 0
    ensures k >= p ==> 0 <= Term(k, p, w) - (p - 1 - k) / p - w / p <= 1
    ensures k >= p && w % p == 0 ==> Term(k, p, w) - (p - 1 - k) / p == w / p
  {
    if k < p {
      QuotientOf(w - k + p - 1, w, 1, p - 1 - k);
      QuotientOf(p - 1 - k, p, 0, p - 1 - k);
    } else {
      QuotientOf(w - k + p - 1, w, 0, w - k + p - 1);
      var x := p - 1 - k;
      var q, r, u, v := w / p, w % p, x / p, x % p;
      assert w == p * q + r && x == p * u + v;
      assert w + x == p * (q + u) + (r + v);
      if r + v < p {
        QuotientOf(w + x, p, q + u, r + v);
      } else {
        assert p * (q + u + 1) == p * (q + u) + p;
        QuotientOf(w + x, p, q + u + 1, r + v - p);
      }
    }
  }

  predicate UnsignedLeap(gy: int) {
    (gy % 4 == 0 && gy % 100 != 0) || gy % 400 == 0
  }

  function Leap(b: bool): int {
    if b then 1 else 0
  }

  /** How far the unsigned sum is off, `k` years before 1600. */
  function EarlyError(k: int, w: nat, after: bool): int
    requires w > 0
  {
    365 * w + (Term(k, 4, w) - (3 - k) / 4) - (Term(k, 100, w) - (99 - k) / 100) + (Term(k, 400, w) - (399 - k) / 400)
    + Leap(after && UnsignedLeap(w - k)) - Leap(after && GregorianLeap(1600 - k))
  }

  lemma SameLeap(k: int, w: nat)
    requires Width(w) && 0 < k < (if w == UINT32 then 4 else 100)
    ensures UnsignedLeap(w - k) == GregorianLeap(1600 - k)
  {
  }

  lemma EarlyErrorNarrow(k: int, after: bool)
    requires 0 < k < UINT32
    ensures EarlyError(k, UINT32, after) % UINT32 == 0 <==> k < 4
  {
    TermIs(k, 4, UINT32);
    TermIs(k, 100, UINT32);
    TermIs(k, 400, UINT32);
    var e := EarlyError(k, UINT32, after);
    hide Term, UnsignedLeap, GregorianLeap;
    if k < 4 {
      SameLeap(k, UINT32);
      QuotientOf(e, UINT32, 365, 0);
    } else {
      NotCut(e, 365, e - UINT32 * 365);
    }
  }

  lemma EarlyErrorWide(k: int, after: bool)
    requires 0 < k < UINT32
    ensures EarlyError(k, UINT32 * UINT32, after) % UINT32 == 0 <==> k < 100
  {
    var w := UINT32 * UINT32;
    TermIs(k, 4, w);
    TermIs(k, 100, w);
    TermIs(k, 400, w);
    var e := EarlyError(k, w, after);
    hide Term, UnsignedLeap, GregorianLeap;
    if k < 100 {
      SameLeap(k, w);
      var z := 365 * UINT32 + if k < 4 then 0 else UINT32 / 4;
      assert e == UINT32 * z;
      QuotientOf(e, UINT32, z, 0);
    } else if k < 400 {
      var z := 365 * UINT32 + UINT32 / 4 - 42949673;
      NotCut(e, z, e - UINT32 * z);
    } else {
      var z := 365 * UINT32 + UINT32 / 4 - 42949673 + 10737418;
      NotCut(e, z, e - UINT32 * z);
    }
  }

  /** The three quotients that count leap years, each of a sum that may wrap around. */
  function LeapTerms(gy: int, w: nat): int
    requires w > 0
  {
    (gy + 3) % w / 4 - (gy + 99) % w / 100 + (gy + 399) % w / 400
  }

  /** The year from which `d13_gdayno` is right. */
  function FirstRightYear(w: nat): int {
    if w == UINT32 then 1597 else 1501
  }

  /** `d13_gdayno`: sums of unsigned numbers, cut to the width of their type and then to that of the result.
      Before 1600 the year wraps around, and only of powers of two do quotients come out right. */
  method GregorianDayNumber(y: int, m: int, d: int, w: nat) returns (n: nat)
    requires Width(w) && 1 <= m <= 13 && -0x8000_0000 <= y < w
    ensures n == DayOf(GREGORIAN, Date(y, m, d)) % UINT32 <==> FirstRightYear(w) <= y
  {
    hide YearStart, Term, UnsignedLeap, EarlyError, MonthStart, Width, GregorianLeap, LeapTerms;
    WidthIs(w);
    var gy, gm := (y - 1600) % w, m - 1;
    var sum := 365 * gy + LeapTerms(gy, w);
    sum := AddMonths(sum, gm, GREGORIAN_MONTHS, GREGORIAN);
    if gm > 1 && UnsignedLeap(gy) {
      sum := sum + 1;
    }
    sum := sum + (d - 1);
    n := sum % w % UINT32;
    CutTwice(sum, w);
    GregorianClosedForm(y - 1600);
    GregorianMonthStart(false, gm);
    GregorianMonthStart(GregorianLeap(y), gm);
    CutEqual(sum, DayOf(GREGORIAN, Date(y, m, d)));
    UnsignedSum(y, w, gm > 1);
  }

  /** What the unsigned sum for a year exceeds the right one by. */
  function UnsignedExcess(y: int, gy: int, w: nat, after: bool): int
    requires w > 0
  {
    365 * gy + LeapTerms(gy, w) + Leap(after && UnsignedLeap(gy))
    - GregorianDays(y - 1600) - Leap(after && GregorianLeap(y))
  }

  lemma LateExcess(y: int, w: nat, after: bool)
    requires Width(w) && 1600 <= y < w
    ensures UnsignedExcess(y, (y - 1600) % w, w, after) == 0
  {
    var gy := y - 1600;
    QuotientOf(gy, w, 0, gy);
    QuotientOf(gy + 3, w, 0, gy + 3);
    QuotientOf(gy + 99, w, 0, gy + 99);
    QuotientOf(gy + 399, w, 0, gy + 399);
    LeapShift(gy);
  }

  lemma EarlyExcess(y: int, w: nat, after: bool)
    requires Width(w) && -0x8000_0000 <= y < 1600
    ensures UnsignedExcess(y, (y - 1600) % w, w, after) == EarlyError(1600 - y, w, after)
  {
    hide UnsignedLeap, GregorianLeap, Leap;
    QuotientOf(y - 1600, w, -1, w - (1600 - y));
  }

  lemma UnsignedSum(y: int, w: nat, after: bool)
    requires Width(w) && -0x8000_0000 <= y < w
    ensures UnsignedExcess(y, (y - 1600) % w, w, after) % UINT32 == 0 <==> FirstRightYear(w) <= y
  {
    hide UnsignedExcess, EarlyError;
    if 1600 <= y {
      LateExcess(y, w, after);
    } else {
      EarlyExcess(y, w, after);
      if w == UINT32 {
        EarlyErrorNarrow(1600 - y, after);
      } else {
        EarlyErrorWide(1600 - y, after);
      }
    }
  }

  /** The part of the Jalali sum that counts leap days. */
  function JalaliLeapDays(jy: int): int {
    (jy / 33) * 8 + (jy % 33 + 3) / 4
  }

  lemma LeapDaysShift(jy: int, q: int, r: nat)
    requires r < 33
    ensures 8 * q <= JalaliLeapDays(33 * q + r + jy) - JalaliLeapDays(jy) <= 8 * q + 9
  {
    var p, s := jy / 33, jy % 33;
    assert jy == 33 * p + s;
    if s + r < 33 {
      QuotientOf(33 * q + r + jy, 33, q + p, s + r);
    } else {
      QuotientOf(33 * q + r + jy, 33, q + p + 1, s + r - 33);
    }
  }

  /** `d13_jdayno`, whose answer to a date with a part that is not positive is 0.  Before 979 the year wraps
      around. */
  method JalaliDayNumber(y: int, m: int, d: int, w: nat) returns (n: nat)
    requires Width(w) && m <= 13 && y < w
    ensures y <= 0 || m <= 0 || d <= 0 ==> n == 0
    ensures y > 0 && m > 0 && d > 0 ==>
              (n == DayOf(JALALI, Date(y, m, d)) % UINT32 <==> 979 <= y && Uncounted(y, m) == 0)
  {
    if y <= 0 || m <= 0 || d <= 0 {
      return 0;
    }
    hide YearStart, MonthStart, JalaliLeap, JalaliLeapDays, JalaliDays, Uncounted, Width;
    WidthIs(w);
    var jy, jm := (y - 979) % w, m - 1;
    var sum := 365 * jy + JalaliLeapDays(jy);
    sum := AddMonths(sum, jm, JALALI_MONTHS, JALALI);
    sum := sum + (d - 1);
    n := sum % w % UINT32;
    CutTwice(sum, w);
    JalaliClosedForm(y - 979);
    JalaliMonths(y, m);
    CutEqual(sum, DayOf(JALALI, Date(y, m, d)));
    UncountedIs(y, m);
    UnsignedJalaliSum(y, w, jy, Uncounted(y, m));
  }

  lemma UncountedIs(y: int, m: int)
    ensures 0 <= Uncounted(y, m) <= 1
  {
  }

  lemma JalaliMonths(y: int, m: int)
    requires 1 <= m <= 13
    ensures MonthStart(JALALI, false, m - 1) == MonthStart(JALALI, JalaliLeap(y), m - 1) - Uncounted(y, m)
  {
    if m < 13 {
      JalaliMonthStart(false, m - 1);
      JalaliMonthStart(JalaliLeap(y), m - 1);
    } else {
      JalaliYearLength(false);
      JalaliYearLength(JalaliLeap(y));
    }
  }

  lemma UnsignedJalaliSum(y: int, w: nat, jy: int, slip: int)
    requires Width(w) && 0 < y < w && jy == (y - 979) % w && 0 <= slip <= 1
    ensures (365 * jy + JalaliLeapDays(jy) - JalaliDays(y - 979) - slip) % UINT32 == 0 <==> 979 <= y && slip == 0
  {
    if 979 <= y {
      QuotientOf(y - 979, w, 0, y - 979);
      QuotientOf(-slip, UINT32, -slip, if slip == 0 then 0 else UINT32 - 1);
    } else {
      var k := 979 - y;
      QuotientOf(y - 979, w, -1, w - k);
      hide JalaliLeapDays;
      JalaliDaysAre(-k);
      var q, r := w / 33, w % 33;
      LeapDaysShift(-k, q, r);
      var e := 365 * w + (JalaliLeapDays(w - k) - JalaliLeapDays(-k)) - slip;
      if w == UINT32 {
        NotCut(e, 365, e - UINT32 * 365);
      } else {
        var z := 365 * UINT32 + 1041204192;
        NotCut(e, z, e - UINT32 * z);
      }
    }
  }

  lemma JalaliDaysAre(jy: int)
    ensures JalaliDays(jy) == 365 * jy + JalaliLeapDays(jy)
  {
  }
}
