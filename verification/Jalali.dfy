/**
 The Jalali (Solar Hijri) calendar walk of internal/sub/remark_vars.go: it maps each Gregorian day
 to exactly the Jalali day as far from the reference day, so consecutive days map to
 consecutive days.
 */
module Jalali {

  datatype Date = Date(y: int, m: int, d: int)

  /** Earlier in the calendar. */
  predicate Before(a: Date, b: Date) {
    a.y < b.y || (a.y == b.y && (a.m < b.m || (a.m == b.m && a.d < b.d)))
  }

  // ---- the Jalali calendar -----------------------------------------------------------

  /** Go's remainder takes the sign of the dividend. */
  function Rem(a: int, b: nat): int
    requires b > 0
  {
    if a >= 0 then a % b else -((-a) % b)
  }

  predicate IsJalaliLeap(y: int) {
    Rem(y, 33) in {1, 5, 9, 13, 17, 22, 26, 30}
  }

  function JalaliMonthDays(y: int, m: int): int {
    if m <= 6 then 31
    else if m <= 11 then 30
    else if IsJalaliLeap(y) then 30
    else 29
  }

  predicate ValidJalali(j: Date) {
    1 <= j.m <= 12 && 1 <= j.d <= JalaliMonthDays(j.y, j.m)
  }

  function YearDays(y: int): int {
    if IsJalaliLeap(y) then 366 else 365
  }

  /** Days before year y, counted from the start of year 0. */
  function YearStart(y: int): int
    decreases if y < 0 then -y else y
  {
    if y == 0 then 0
    else if y > 0 then YearStart(y - 1) + YearDays(y - 1)
    else YearStart(y + 1) - YearDays(y)
  }

  lemma YearStartNext(y: int)
    ensures YearStart(y + 1) == YearStart(y) + YearDays(y)
  {
  }

  lemma DivShift(k: nat, m: nat)
    ensures (33 * k + m) / 33 == k + m / 33 && (33 * k + m) % 33 == m % 33
  {
  }

  lemma LeapTable(r: nat)
    requires r < 33
    ensures (8 * r + 29) / 33 == (8 * r + 21) / 33 + (if r in {1, 5, 9, 13, 17, 22, 26, 30} then 1 else 0)
  {
  }

  lemma LeapStep(y: nat)
    ensures (8 * (y + 1) + 21) / 33 == (8 * y + 21) / 33 + (if IsJalaliLeap(y) then 1 else 0)
  {
    var q, r := y / 33, y % 33;
    DivShift(8 * q, 8 * r + 21);
    DivShift(8 * q, 8 * r + 29);
    LeapTable(r);
  }

  /** In closed form: eight leap years in every 33 years, from year 1 on. */
  lemma {:induction false} YearStartExactly(y: int)
    ensures YearStart(y) == 365 * y + (if y > 0 then (8 * y + 21) / 33 else 0)
    decreases if y < 0 then -y else y
  {
    if y > 0 {
      YearStartExactly(y - 1);
      LeapStep(y - 1);
    } else if y < 0 {
      YearStartExactly(y + 1);
    }
  }

  /** Days before month m of a year. */
  function MonthStart(m: int): int {
    if m <= 7 then (m - 1) * 31 else 186 + (m - 7) * 30
  }

  function DayNumber(j: Date): int {
    YearStart(j.y) + MonthStart(j.m) + j.d
  }

  function NextJalali(j: Date): Date {
    if j.d < JalaliMonthDays(j.y, j.m) then Date(j.y, j.m, j.d + 1)
    else if j.m < 12 then Date(j.y, j.m + 1, 1)
    else Date(j.y + 1, 1, 1)
  }

  lemma MonthEnd(y: int, m: int)
    requires 1 <= m <= 12
    ensures m < 12 ==> MonthStart(m + 1) == MonthStart(m) + JalaliMonthDays(y, m)
    ensures m == 12 ==> MonthStart(m) + JalaliMonthDays(y, m) == YearDays(y)
  {
    hide IsJalaliLeap;
  }

  /** The calendar's next day has the next day number. */
  lemma NextJalaliNumber(j: Date)
    requires ValidJalali(j)
    ensures ValidJalali(NextJalali(j)) && DayNumber(NextJalali(j)) == DayNumber(j) + 1
  {
    hide IsJalaliLeap, YearStart;
    MonthEnd(j.y, j.m);
    YearStartNext(j.y);
    assert MonthStart(1) == 0;
  }

  lemma {:induction false} YearsGrow(a: int, b: int)
    requires a <= b
    ensures YearStart(a) <= YearStart(b)
    decreases b - a
  {
    hide IsJalaliLeap, YearStart;
    if a < b {
      YearsGrow(a, b - 1);
      YearStartNext(b - 1);
    }
  }

  lemma DayInYear(j: Date)
    requires ValidJalali(j)
    ensures YearStart(j.y) < DayNumber(j) <= YearStart(j.y + 1)
  {
    hide IsJalaliLeap, YearStart;
    YearStartNext(j.y);
  }

  lemma MonthsGrow(y: int, a: int, b: int)
    requires 1 <= a < b <= 12
    ensures MonthStart(a) + JalaliMonthDays(y, a) <= MonthStart(b)
  {
    hide IsJalaliLeap;
  }

  /** Day numbers follow the order of the calendar. */
  lemma DayNumberOrder(a: Date, b: Date)
    requires ValidJalali(a) && ValidJalali(b)
    ensures Before(a, b) <==> DayNumber(a) < DayNumber(b)
    ensures a == b <==> DayNumber(a) == DayNumber(b)
  {
    hide JalaliMonthDays, YearStart, MonthStart;
    if Before(a, b) {
      JalaliOrder(a, b);
    } else if Before(b, a) {
      JalaliOrder(b, a);
    }
  }

  lemma JalaliOrder(a: Date, b: Date)
    requires ValidJalali(a) && ValidJalali(b) && Before(a, b)
    ensures DayNumber(a) < DayNumber(b)
  {
    hide IsJalaliLeap, YearStart, MonthStart;
    if a.y < b.y {
      DayInYear(a);
      DayInYear(b);
      YearsGrow(a.y + 1, b.y);
    } else if a.m < b.m {
      MonthsGrow(a.y, a.m, b.m);
    }
  }

  // ---- the Gregorian calendar ------------------------------------------------------------

  predicate IsGregorianLeap(y: int) {
    y % 4 == 0 && (y % 100 != 0 || y % 400 == 0)
  }

  function GregorianMonthDays(y: int, m: int): int {
    if m == 2 then (if IsGregorianLeap(y) then 29 else 28)
    else if m in {4, 6, 9, 11} then 30
    else 31
  }

  /** A date of the Gregorian calendar, from the first year the Julian day formula covers. */
  predicate ValidGregorian(g: Date) {
    g.y >= -4799 && 1 <= g.m <= 12 && 1 <= g.d <= GregorianMonthDays(g.y, g.m)
  }

  function NextGregorian(g: Date): Date {
    if g.d < GregorianMonthDays(g.y, g.m) then Date(g.y, g.m, g.d + 1)
    else if g.m < 12 then Date(g.y, g.m + 1, 1)
    else Date(g.y + 1, 1, 1)
  }

  // The Julian day number counts years from March, so that the leap day comes last.

  function MarchYear(g: Date): int { g.y + 4800 - (14 - g.m) / 12 }

  function MarchMonth(g: Date): int { g.m + 12 * ((14 - g.m) / 12) - 3 }

  function YearPart(y: int): int { 365 * y + y / 4 - y / 100 + y / 400 }

  function MonthPart(m: int): int { (153 * m + 2) / 5 }

  function JulianDay(g: Date): int {
    g.d + MonthPart(MarchMonth(g)) + YearPart(MarchYear(g)) - 32045
  }

  lemma YearPartNext(y: int)
    requires y >= 0
    ensures YearPart(y + 1) == YearPart(y) + 365 + (if IsGregorianLeap(y + 1 - 4800) then 1 else 0)
  {
    LeapShift(y + 1);
  }

  lemma LeapShift(y: int)
    requires y >= 1
    ensures IsGregorianLeap(y - 4800) <==> y % 4 == 0 && (y % 100 != 0 || y % 400 == 0)
    ensures y / 4 - (y - 1) / 4 == if y % 4 == 0 then 1 else 0
    ensures y / 100 - (y - 1) / 100 == if y % 100 == 0 then 1 else 0
    ensures y / 400 - (y - 1) / 400 == if y % 400 == 0 then 1 else 0
    ensures (y % 400 == 0 ==> y % 100 == 0) && (y % 100 == 0 ==> y % 4 == 0)
  {
    Quotients(y, 4);
    Quotients(y, 100);
    Quotients(y, 400);
    Multiples(y);
    SameRemainders(y);
  }

  lemma SameRemainders(y: int)
    ensures (y - 4800) % 400 == y % 400 && (y - 4800) % 100 == y % 100 && (y - 4800) % 4 == y % 4
  {
  }

  lemma Quotients(y: int, d: int)
    requires y >= 1 && d in {4, 100, 400}
    ensures y / d - (y - 1) / d == if y % d == 0 then 1 else 0
  {
  }

  lemma Multiples(y: int)
    ensures (y % 400 == 0 ==> y % 100 == 0) && (y % 100 == 0 ==> y % 4 == 0)
  {
  }

  /** The next Gregorian day has the next Julian day number. */
  lemma NextJulianDay(g: Date)
    requires ValidGregorian(g)
    ensures ValidGregorian(NextGregorian(g)) && JulianDay(NextGregorian(g)) == JulianDay(g) + 1
  {
    hide IsGregorianLeap, YearPart;
    if g.m == 2 {
      YearPartNext(g.y + 4799);
    }
  }

  lemma {:induction false} YearPartsGrow(a: int, b: int)
    requires 0 <= a <= b
    ensures YearPart(b) >= YearPart(a) + 365 * (b - a)
    decreases b - a
  {
    hide IsGregorianLeap, YearPart;
    if a < b {
      YearPartsGrow(a, b - 1);
      YearPartNext(b - 1);
    }
  }

  lemma DayInMarchYear(g: Date)
    requires ValidGregorian(g)
    ensures 0 <= MarchYear(g)
    ensures 1 <= g.d + MonthPart(MarchMonth(g)) <= YearPart(MarchYear(g) + 1) - YearPart(MarchYear(g))
  {
    hide IsGregorianLeap, YearPart;
    YearPartNext(MarchYear(g));
  }

  /** Julian day numbers follow the order of the calendar. */
  lemma JulianDayOrder(a: Date, b: Date)
    requires ValidGregorian(a) && ValidGregorian(b) && Before(a, b)
    ensures JulianDay(a) < JulianDay(b)
  {
    hide IsGregorianLeap, YearPart;
    DayInMarchYear(a);
    DayInMarchYear(b);
    if MarchYear(a) < MarchYear(b) {
      YearPartsGrow(MarchYear(a) + 1, MarchYear(b));
    }
  }

  // ---- the walk --------------------------------------------------------------------------------

  const Reference := Date(1402, 10, 11)
  const ReferenceJDN := 2460311

  /** j is as many Jalali days from the reference day as g is Gregorian days from it. */
  predicate SameDay(g: Date, j: Date) {
    ValidJalali(j) && DayNumber(j) - DayNumber(Reference) == JulianDay(g) - ReferenceJDN
  }

  method GregorianToJalali(gy: int, gm: int, gd: int) returns (jy: int, jm: int, jd: int)
    requires ValidGregorian(Date(gy, gm, gd))
    ensures SameDay(Date(gy, gm, gd), Date(jy, jm, jd))
  {
    hide IsJalaliLeap, YearStart, IsGregorianLeap;
    var a := (14 - gm) / 12;
    var y := gy + 4800 - a;
    var m := gm + 12 * a - 3;
    var jdn := gd + (153 * m + 2) / 5 + 365 * y + y / 4 - y / 100 + y / 400 - 32045;
    var days := jdn - ReferenceJDN;
    ghost var target := DayNumber(Reference) + days;
    jy, jm, jd := 1402, 10, 11;
    while days > 0
      invariant ValidJalali(Date(jy, jm, jd)) && DayNumber(Date(jy, jm, jd)) + days == target
      decreases days
    {
      var remaining := JalaliMonthDays(jy, jm) - jd + 1;
      if days < remaining {
        jd := jd + days;
        return;
      }
      days := days - remaining;
      MonthEnd(jy, jm);
      YearStartNext(jy);
      jm := jm + 1;
      if jm > 12 {
        jm := 1;
        jy := jy + 1;
      }
      jd := 1;
    }
    if days < 0 {
      jd := jd + days;
      while jd < 1
        invariant 1 <= jm <= 12 && jd <= JalaliMonthDays(jy, jm)
        invariant YearStart(jy) + MonthStart(jm) + jd == target
        decreases 1 - jd
      {
        jm := jm - 1;
        if jm < 1 {
          jm := 12;
          jy := jy - 1;
        }
        MonthEnd(jy, jm);
        YearStartNext(jy);
        jd := jd + JalaliMonthDays(jy, jm);
      }
      days := 0;
    }
  }

  // ---- what the conversion means -------------------------------------------------------------------

  /** The Jalali date of a Gregorian day is unique. */
  lemma ConversionIsUnique(g: Date, j: Date, k: Date)
    requires SameDay(g, j) && SameDay(g, k)
    ensures j == k
  {
    hide DayNumber, JulianDay;
    DayNumberOrder(j, k);
  }

  /** Consecutive Gregorian days convert to consecutive Jalali days. */
  lemma NextDayCommutes(g: Date, j: Date, k: Date)
    requires ValidGregorian(g) && SameDay(g, j) && SameDay(NextGregorian(g), k)
    ensures k == NextJalali(j)
  {
    hide DayNumber, JulianDay, ValidJalali, NextJalali, NextGregorian, ValidGregorian;
    NextJulianDay(g);
    NextJalaliNumber(j);
    DayNumberOrder(k, NextJalali(j));
  }

  /** The conversion is strictly monotone, hence injective. */
  lemma ConversionKeepsOrder(g: Date, h: Date, j: Date, k: Date)
    requires ValidGregorian(g) && ValidGregorian(h) && SameDay(g, j) && SameDay(h, k)
    ensures Before(g, h) <==> Before(j, k)
    ensures g == h <==> j == k
  {
    hide DayNumber, JulianDay, ValidJalali, ValidGregorian;
    DayNumberOrder(j, k);
    if Before(g, h) {
      JulianDayOrder(g, h);
    } else if Before(h, g) {
      JulianDayOrder(h, g);
    }
  }

  lemma KnownJulianDay2024()
    ensures JulianDay(Date(2024, 1, 1)) == 2460311
  {
    assert MarchYear(Date(2024, 1, 1)) == 6823 && MarchMonth(Date(2024, 1, 1)) == 10;
  }

  lemma KnownJulianDay2025(d: int)
    ensures JulianDay(Date(2025, 3, d)) == 2460735 + d
  {
    assert MarchYear(Date(2025, 3, d)) == 6825 && MarchMonth(Date(2025, 3, d)) == 0;
  }

  /** Around Nowruz 1404, which ends a leap year. */
  lemma KnownDays()
    ensures SameDay(Date(2024, 1, 1), Date(1402, 10, 11))
    ensures SameDay(Date(2025, 3, 20), Date(1403, 12, 30)) && SameDay(Date(2025, 3, 21), Date(1404, 1, 1))
  {
    hide YearStart, JulianDay;
    KnownJulianDay2024();
    KnownJulianDay2025(20);
    KnownJulianDay2025(21);
    YearStartNext(1402);
    YearStartNext(1403);
  }
}
