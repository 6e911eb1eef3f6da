/**
 ngx_gmtime of src/core/ngx_times.c against the Gregorian calendar counted year by
 year and month by month.
 */
module Times {

  const EPOCH: nat := 1970

  /** ngx_tm_t; months and days count from one, weekdays from Sunday. */
  datatype Tm = Tm(sec: int, min: int, hour: int, mday: int, mon: int, year: int, wday: int)

  // ------------------------------------------------------------ the calendar

  predicate Leap(y: nat) { y % 4 == 0 && (y % 100 != 0 || y % 400 == 0) }

  function YearLength(y: nat): nat { if Leap(y) then 366 else 365 }

  function MonthLength(y: nat, m: nat): nat
    requires 1 <= m <= 12
  {
    if m == 2 then (if Leap(y) then 29 else 28)
    else if m == 4 || m == 6 || m == 9 || m == 11 then 30
    else 31
  }

  /** Days from January 1, 1970 to January 1 of the year. */
  function DaysBeforeYear(y: nat): nat
    requires y >= EPOCH
  {
    if y == EPOCH then 0 else DaysBeforeYear(y - 1) + YearLength(y - 1)
  }

  function DaysBeforeMonth(y: nat, m: nat): nat
    requires 1 <= m <= 12
  {
    if m == 1 then 0 else DaysBeforeMonth(y, m - 1) + MonthLength(y, m - 1)
  }

  predicate IsDate(y: int, m: int, d: int) {
    y >= EPOCH && 1 <= m <= 12 && 1 <= d <= MonthLength(y, m)
  }

  /** Days since January 1, 1970. */
  function DayNumber(y: int, m: int, d: int): (n: nat)
    requires IsDate(y, m, d)
  {
    DaysBeforeYear(y) + DaysBeforeMonth(y, m) + (d - 1)
  }

  /** January 1, 1970 was a Thursday. */
  function Weekday(day: nat): nat { if day == 0 then 4 else (Weekday(day - 1) + 1) % 7 }

  lemma {:induction false} WeekdayIs(day: nat)
    ensures Weekday(day) == (4 + day) % 7
  {
    if day > 0 {
      WeekdayIs(day - 1);
    }
  }

  lemma MonthsOfYear(y: nat)
    ensures DaysBeforeMonth(y, 1) == 0 && DaysBeforeMonth(y, 2) == 31
    ensures var f := if Leap(y) then 1 else 0;
            && DaysBeforeMonth(y, 3) == 59 + f && DaysBeforeMonth(y, 4) == 90 + f && DaysBeforeMonth(y, 5) == 120 + f
            && DaysBeforeMonth(y, 6) == 151 + f && DaysBeforeMonth(y, 7) == 181 + f && DaysBeforeMonth(y, 8) == 212 + f
            && DaysBeforeMonth(y, 9) == 243 + f && DaysBeforeMonth(y, 10) == 273 + f
               && DaysBeforeMonth(y, 11) == 304 + f
            && DaysBeforeMonth(y, 12) == 334 + f
  {
    assert DaysBeforeMonth(y, 3) == DaysBeforeMonth(y, 2) + MonthLength(y, 2);
    assert DaysBeforeMonth(y, 5) == DaysBeforeMonth(y, 4) + MonthLength(y, 4);
    assert DaysBeforeMonth(y, 7) == DaysBeforeMonth(y, 6) + MonthLength(y, 6);
    assert DaysBeforeMonth(y, 9) == DaysBeforeMonth(y, 8) + MonthLength(y, 8);
    assert DaysBeforeMonth(y, 11) == DaysBeforeMonth(y, 10) + MonthLength(y, 10);
  }

  // ------------------------------------------------------- years from March

  /** Days from March 1 of the year 0 to March 1 of the year. */
  function March(y: int): int { 365 * y + y / 4 - y / 100 + y / 400 }

  const MARCH_TO_EPOCH: int := 719527 - (31 + 28)

  lemma MarchStep(y: nat)
    ensures March(y + 1) == March(y) + YearLength(y + 1)
  {
    Quotient(y, 4);
    Quotient(y, 100);
    Quotient(y, 400);
    assert (y + 1) % 400 == 0 ==> (y + 1) % 100 == 0 by { Divides(y + 1, 100, 4); }
    assert (y + 1) % 100 == 0 ==> (y + 1) % 4 == 0 by { Divides(y + 1, 4, 25); }
  }

  lemma Quotient(y: nat, k: nat)
    requires k > 1
    ensures (y + 1) / k == y / k + if (y + 1) % k == 0 then 1 else 0
  {
    var q, r := y / k, y % k;
    assert y == k * q + r;
    if r == k - 1 {
      assert y + 1 == k * (q + 1) + 0;
      DivMod(y + 1, k, q + 1, 0);
    } else {
      assert y + 1 == k * q + (r + 1);
      DivMod(y + 1, k, q, r + 1);
    }
  }

  lemma LessFromProduct(k: int, d: int)
    requires -k < k * d < k
    ensures d == 0
  {
  }

  lemma DivMod(y: nat, k: nat, q: nat, r: nat)
    requires k > 0 && r < k && y == k * q + r
    ensures y / k == q && y % k == r
  {
    var d := y / k - q;
    assert k * d == r - y % k;
    LessFromProduct(k, d);
  }

  lemma Divides(y: nat, a: nat, b: nat)
    requires a > 0 && b > 0
    ensures y % (a * b) == 0 ==> y % a == 0
  {
    if y % (a * b) == 0 {
      var q := y / (a * b);
      assert y == a * b * q == a * (b * q) + 0;
      DivMod(y, a, b * q, 0);
    }
  }

  /** January 1 is 306 days after March 1 of the year before. */
  lemma {:induction false} YearFromMarch(y: nat)
    requires y >= EPOCH
    ensures DaysBeforeYear(y) == March(y - 1) + 306 - MARCH_TO_EPOCH
  {
    if y > EPOCH {
      YearFromMarch(y - 1);
      MarchStep(y - 2);
    }
  }

  // ------------------------------------------------------- the year estimate

  function Estimate(days: int): int { (days + 2) * 400 / 146097 }

  lemma Centuries(c: nat, y: nat)
    ensures March(400 * c + y) == 146097 * c + March(y)
  {
    DivMod(400 * c + y, 4, 100 * c + y / 4, y % 4);
    DivMod(400 * c + y, 100, 4 * c + y / 100, y % 100);
    DivMod(400 * c + y, 400, c + y / 400, y % 400);
  }

  lemma EstimateWithin(y: nat, r: nat)
    requires y < 400 && March(y) <= r < March(y + 1)
    ensures y <= Estimate(r) <= y + 1
  {
    var z := y + 1;
    assert 400 * (y / 4) >= 100 * y - 300 && 400 * (y / 100) <= 4 * y && y / 400 == 0;
    assert 400 * (z / 4) <= 100 * z && 400 * (z / 100) >= 4 * z - 396 && 0 <= z / 400 <= 1;
    assert 146097 * y <= (r + 2) * 400;
    assert (r + 2) * 400 < 146097 * (y + 2);
  }

  /** The year, counted from March, in which a day lies. */
  lemma {:induction false} MarchYear(r: nat, n: nat) returns (y: nat)
    requires r < March(n)
    ensures y < n && March(y) <= r < March(y + 1)
  {
    MarchStep(n - 1);
    if March(n - 1) <= r {
      y := n - 1;
    } else {
      y := MarchYear(r, n - 1);
    }
  }

  /** The estimate is the year or the one after. */
  lemma EstimateFacts(days: nat) returns (y: nat)
    ensures March(y) <= days < March(y + 1) && y <= Estimate(days) <= y + 1
  {
    var c, r := days / 146097, days % 146097;
    var y0 := MarchYear(r, 400);
    y := 400 * c + y0;
    Centuries(c, y0);
    Centuries(c, y0 + 1);
    EstimateWithin(y0, r);
    EstimateShift(c, r);
  }

  lemma EstimateShift(c: nat, r: nat)
    ensures Estimate(146097 * c + r) == 400 * c + Estimate(r)
  {
    var n := (r + 2) * 400;
    DivMod(146097 * (400 * c) + n, 146097, 400 * c + n / 146097, n % 146097);
    assert (146097 * c + r + 2) * 400 == 146097 * (400 * c) + n;
  }

  // ------------------------------------------------------------- ngx_gmtime

  /** The month, counted from March, and the day in it: the empirical formulas agree
      with the lengths of the months. */
  lemma MonthFacts(y: nat, yday: nat)
    requires yday < 365 + if Leap(y + 1) then 1 else 0
    ensures var mon := (yday + 31) * 10 / 306;
            var mday := yday - (367 * mon / 12 - 30) + 1;
            && 1 <= mon <= 12 && (mon > 10 <==> yday >= 306)
            && (mon <= 10 ==>
               1 <= mday <= MonthLength(y, mon + 2)
                   && DaysBeforeMonth(y, mon + 2) + mday - 1 == yday + 59 + if Leap(y) then 1 else 0)
            && (mon > 10 ==>
               1 <= mday <= MonthLength(y + 1, mon - 10) && DaysBeforeMonth(y + 1, mon - 10) + mday - 1 == yday - 306)
  {
    MonthsOfYear(y);
    MonthsOfYear(y + 1);
    var mon := (yday + 31) * 10 / 306;
    assert 306 * mon <= (yday + 31) * 10 < 306 * (mon + 1);
  }

  /** The day number of a date, with the year counted from March. */
  lemma DayFromMarch(y: nat, yday: nat)
    requires y >= EPOCH - 1 && (y == EPOCH - 1 ==> yday >= 306)
    ensures yday < 306 ==>
              DaysBeforeYear(y) + (59 + if Leap(y) then 1 else 0) + yday == March(y) + yday - MARCH_TO_EPOCH
    ensures yday >= 306 ==> DaysBeforeYear(y + 1) + (yday - 306) == March(y) + yday - MARCH_TO_EPOCH
  {
    YearFromMarch(y + 1);
    if y >= EPOCH {
      YearFromMarch(y);
      MarchStep(y - 1);
    }
  }

  /** Days since 1970 are in a year that began in March 1969 or later. */
  lemma SinceEpoch(days: nat, y: nat)
    requires days >= MARCH_TO_EPOCH && March(y) <= days < March(y + 1)
    ensures y >= EPOCH - 1 && (y == EPOCH - 1 ==> days - March(y) >= 306)
  {
  }

  /** ngx_gmtime, for times from 1970 on */
  method Gmtime(t: nat) returns (tm: Tm)
    ensures IsDate(tm.year, tm.mon, tm.mday)
    ensures 0 <= tm.hour < 24 && 0 <= tm.min < 60 && 0 <= tm.sec < 60
    ensures t == DayNumber(tm.year, tm.mon, tm.mday) * 86400 + tm.hour * 3600 + tm.min * 60 + tm.sec
    ensures tm.wday == Weekday(DayNumber(tm.year, tm.mon, tm.mday))
  {
    hide IsDate, DayNumber, Weekday;
    var n := t;
    var days := n / 86400;
    WeekdayIs(days);
    var wday := (4 + days) % 7;
    n := n % 86400;
    var hour := n / 3600;
    n := n % 3600;
    var min := n / 60;
    var sec := n % 60;
    var mday, mon, year := DateOf(days);
    tm := Tm(sec, min, hour, mday, mon, year, wday);
  }

  /** The date of a day, by way of the year counted from March. */
  method DateOf(day: nat) returns (mday: int, mon: int, year: int)
    ensures IsDate(year, mon, mday) && DayNumber(year, mon, mday) == day
  {
    hide DaysBeforeYear, DaysBeforeMonth, MonthLength, March;
    var days: int := day - (31 + 28) + 719527;
    year := (days + 2) * 400 / (365 * 400 + 100 - 4 + 1);
    ghost var y := EstimateFacts(days);
    SinceEpoch(days, y);
    MarchStep(y);
    MarchIs(year);
    var yday: int := days - (365 * year + year / 4 - year / 100 + year / 400);
    if yday < 0 {
      var leap := if year % 4 == 0 && (year % 100 != 0 || year % 400 == 0) then 1 else 0;
      yday := 365 + leap + yday;
      year := year - 1;
    }
    assert year == y && yday == days - March(y);
    YearFound(days, y, year, yday);
    mon := (yday + 31) * 10 / 306;
    mday := yday - (367 * mon / 12 - 30) + 1;
    MonthFacts(y, yday);
    DayFromMarch(y, yday);
    if yday >= 306 {
      year := year + 1;
      mon := mon - 10;
    } else {
      mon := mon + 2;
    }
  }

  lemma MarchIs(y: int)
    ensures March(y) == 365 * y + y / 4 - y / 100 + y / 400
  {
  }

  lemma YearFound(days: nat, y: nat, year: int, yday: int)
    requires March(y) <= days < March(y + 1) && (year == y || year == y + 1)
    requires yday == days - March(y)
    ensures 0 <= yday < 365 + if Leap(y + 1) then 1 else 0
  {
    MarchStep(y);
  }

  // ------------------------------------------------------------- uniqueness

  lemma {:induction false} MonthMonotonic(y: nat, a: nat, b: nat)
    requires 1 <= a < b <= 12
    ensures DaysBeforeMonth(y, a) + MonthLength(y, a) <= DaysBeforeMonth(y, b)
  {
    if a + 1 < b {
      MonthMonotonic(y, a, b - 1);
    }
  }

  lemma {:induction false} YearMonotonic(a: nat, b: nat)
    requires EPOCH <= a < b
    ensures DaysBeforeYear(a) + YearLength(a) <= DaysBeforeYear(b)
  {
    if a + 1 < b {
      YearMonotonic(a, b - 1);
    }
  }

  lemma WithinYear(y: nat, m: nat, d: nat)
    requires IsDate(y, m, d)
    ensures DaysBeforeMonth(y, m) + d <= YearLength(y)
  {
    MonthsOfYear(y);
  }

  /** No two dates have the same day number: a time has one date. */
  lemma OneDate(y: nat, m: nat, d: nat, y': nat, m': nat, d': nat)
    requires IsDate(y, m, d) && IsDate(y', m', d') && DayNumber(y, m, d) == DayNumber(y', m', d')
    ensures y == y' && m == m' && d == d'
  {
    WithinYear(y, m, d);
    WithinYear(y', m', d');
    if y < y' {
      YearMonotonic(y, y');
    } else if y' < y {
      YearMonotonic(y', y);
    } else if m < m' {
      MonthMonotonic(y, m, m');
    } else if m' < m {
      MonthMonotonic(y, m', m);
    }
  }
}
