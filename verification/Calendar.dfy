/**
 `global_time`: the broken-down UTC time of a 64-bit timestamp, computed by a
 closed form over centuries and four-year cycles, against plain counting in the
 proleptic Gregorian calendar.
 */
module Calendar {
  import opened Words

  // ---------------------------------------------------------------------
  // Counting
  // ---------------------------------------------------------------------

  predicate Leap(y: int)
  {
    y % 4 == 0 && (y % 100 != 0 || y % 400 == 0)
  }

  function YearLength(y: int): nat
  {
    if Leap(y) then 366 else 365
  }

  /** Months are numbered from 0, as in `tm_mon`. */
  function MonthLength(y: int, m: int): nat
    requires 0 <= m < 12
  {
    if m == 1 then (if Leap(y) then 29 else 28)
    else if m == 3 || m == 5 || m == 8 || m == 10 then 30
    else 31
  }

  /** Walk forward or back a year at a time until the day falls inside the year. */
  function YearAndDay(y: int, rest: int): (r: (int, nat))
    decreases rest < 0, if rest < 0 then -rest else rest
  {
    if rest < 0 then YearAndDay(y - 1, rest + YearLength(y - 1))
    else if rest >= YearLength(y) then YearAndDay(y + 1, rest - YearLength(y))
    else (y, rest)
  }

  /** Walk forward a month at a time until the day falls inside the month; days of the month from 1. */
  function MonthAndDay(y: int, m: int, rest: nat): (r: (int, int))
    requires 0 <= m < 12
    decreases 12 - m
  {
    if rest < MonthLength(y, m) || m == 11 then (m, rest + 1)
    else MonthAndDay(y, m + 1, rest - MonthLength(y, m))
  }

  /** A calendar day by counting: days is the number of days since 1 January 1970. */
  datatype Date = Date(year: int, month: int, day: int, yday: int)

  function DateOf(days: int): Date
  {
    var (y, yday) := YearAndDay(1970, days);
    var (m, d) := MonthAndDay(y, 0, yday);
    Date(y, m, d, yday)
  }

  // ---------------------------------------------------------------------
  // What counting comes to
  // ---------------------------------------------------------------------

  /** Days from 1 January 1970 to 1 January of year y. */
  function DaysBeforeYear(y: int): int
  {
    365 * (y - 1970) + (y - 1) / 4 - (y - 1) / 100 + (y - 1) / 400 - 477
  }

  lemma {:induction false} NextYear(y: int)
    ensures DaysBeforeYear(y + 1) == DaysBeforeYear(y) + YearLength(y)
  {
    NextQuotient(y, 4);
    NextQuotient(y, 100);
    NextQuotient(y, 400);
    if y % 400 == 0 {
      Divides(y, 100, 4);
    }
    if y % 100 == 0 {
      Divides(y, 4, 25);
    }
  }

  lemma {:induction false} NextQuotient(y: int, d: int)
    requires d > 1
    ensures y / d == (y - 1) / d + (if y % d == 0 then 1 else 0)
  {
    DivMod(y, d);
    if y % d == 0 {
      Distribute(y / d, -1, d);
      DivModUnique(y - 1, d, y / d - 1, d - 1);
    } else {
      DivModUnique(y - 1, d, y / d, y % d - 1);
    }
  }

  lemma {:induction false} Divides(y: int, d: int, k: int)
    requires d > 0 && k > 0 && d * k > 0 && y % (d * k) == 0
    ensures y % d == 0
  {
    DivMod(y, d * k);
    var q := y / (d * k);
    Commute(d, k);
    Associate(q, k, d);
    DivModUnique(y, d, q * k, 0);
  }

  /** The year walk ends in the one year that contains the day. */
  lemma {:induction false} YearWalk(y: int, rest: int, goal: int, yday: nat)
    requires DaysBeforeYear(y) + rest == DaysBeforeYear(goal) + yday && yday < YearLength(goal)
    ensures YearAndDay(y, rest) == (goal, yday)
    decreases rest < 0, if rest < 0 then -rest else rest
  {
    hide DaysBeforeYear;
    if rest < 0 {
      NextYear(y - 1);
      YearWalk(y - 1, rest + YearLength(y - 1), goal, yday);
    } else if rest >= YearLength(y) {
      NextYear(y);
      YearWalk(y + 1, rest - YearLength(y), goal, yday);
    } else if goal < y {
      YearsApart(goal, y);
    } else if y < goal {
      YearsApart(y, goal);
    }
  }

  lemma {:induction false} YearsApart(a: int, b: int)
    requires a < b
    ensures DaysBeforeYear(a) + YearLength(a) <= DaysBeforeYear(b)
    decreases b - a
  {
    hide DaysBeforeYear;
    NextYear(a);
    if a + 1 < b {
      YearsApart(a + 1, b);
    }
  }

  /** Days of the year before month m. */
  function DaysBeforeMonth(y: int, m: int): int
    requires 0 <= m <= 12
  {
    if m == 0 then 0 else DaysBeforeMonth(y, m - 1) + MonthLength(y, m - 1)
  }

  lemma {:induction false} MonthWalk(y: int, m: int, rest: nat, goal: int, d: int)
    requires 0 <= m <= goal < 12 && 1 <= d <= MonthLength(y, goal)
    requires rest == DaysBeforeMonth(y, goal) - DaysBeforeMonth(y, m) + d - 1
    ensures MonthAndDay(y, m, rest) == (goal, d)
    decreases goal - m
  {
    if m < goal {
      MonthsApart(y, m + 1, goal);
      MonthWalk(y, m + 1, rest - MonthLength(y, m), goal, d);
    }
  }

  lemma {:induction false} MonthsApart(y: int, a: int, b: int)
    requires 0 <= a <= b <= 12
    ensures DaysBeforeMonth(y, a) <= DaysBeforeMonth(y, b)
    decreases b - a
  {
    if a < b {
      MonthsApart(y, a, b - 1);
    }
  }

  /** A date that adds up to the right number of days is the counted date. */
  lemma {:induction false} DateUnique(days: int, y: int, m: int, d: int, yday: nat)
    requires 0 <= m < 12 && 1 <= d <= MonthLength(y, m)
    requires yday == DaysBeforeMonth(y, m) + d - 1 && yday < YearLength(y)
    requires days == DaysBeforeYear(y) + yday
    ensures DateOf(days) == Date(y, m, d, yday)
  {
    assert DaysBeforeYear(1970) == 0;
    YearWalk(1970, days, y, yday);
    MonthWalk(y, 0, yday, m, d);
  }

  // ---------------------------------------------------------------------
  // The closed form
  // ---------------------------------------------------------------------

  /** The remainder that goes with division toward zero. */
  function TruncMod(x: int, d: int): int
    requires d > 0
  {
    x - TruncDiv(x, d) * d
  }

  /** The fix-up idiom of the source: truncate, then step down if the remainder is negative. */
  lemma {:induction false} FloorFix(x: int, d: int)
    requires d == 7 || d == 1461 || d == 86400 || d == 146097
    ensures TruncDiv(x, d) - (if TruncMod(x, d) < 0 then 1 else 0) == x / d
    ensures TruncMod(x, d) + (if TruncMod(x, d) < 0 then d else 0) == x % d
  {
  }

  /**
   A day as 400-year era a, century g of it, day x of that century and March-year v
   of the century, all counted from 1 March 1900; n is the day of the March-year.
   */
  ghost predicate Split(t: int, a: int, g: int, x: int, v: int, n: int)
  {
    && 0 <= g < 4 && 0 <= x && x < (if g == 0 then 36525 else 36524)
    && t + 25508 == 146097 * a + 36525 * g - (if g >= 1 then g - 1 else 0) + x
    && 0 <= v < 100 && 0 <= n && x == 365 * v + v / 4 + n
    && n <= 365 && (n == 365 ==> v % 4 == 3 && (v == 99 ==> g == 0))
  }

  lemma {:induction false} SplitExists(t: int) returns (a: int, g: int, x: int, v: int, n: int)
    ensures Split(t, a, g, x, v, n)
    ensures g == (4 * ((t + 25508) - 146097 * a)) / 146097
    ensures v == (4 * x + 3) / 1461
  {
    var d := t + 25508;
    a := d / 146097;
    var r := d % 146097;
    g := (4 * r) / 146097;
    x := r - 36525 * g + (if g >= 1 then g - 1 else 0);
    assert 0 <= x && x < (if g == 0 then 36525 else 36524);
    v := (4 * x + 3) / 1461;
    n := x - 365 * v - v / 4;
    YearOfCentury(x, v, n);
  }

  lemma {:induction false} YearOfCentury(x: int, v: int, n: int)
    requires 0 <= x < 36525 && v == (4 * x + 3) / 1461 && n == x - 365 * v - v / 4
    ensures 0 <= v < 100 && 0 <= n <= 365
    ensures n == 365 ==> v % 4 == 3
    ensures n == 365 && v == 99 ==> x == 36524
  {
    var q, r := v / 4, v % 4;
    assert v == 4 * q + r;
    assert n == x - 1461 * q - 365 * r;
  }

  /** The two corrections of the source turn a day into its March-year and day of that year. */
  lemma {:induction false} CenturyCorrection(t: int, a: int, g: int, x: int, v: int, n: int)
    requires Split(t, a, g, x, v, n)
    requires g == (4 * ((t + 25508) - 146097 * a)) / 146097 && v == (4 * x + 3) / 1461
    ensures var f := (4 * t + 102032) / 146097 - 1;
            var t2 := t + f - f / 4;
            var c := (4 * t2 + 102035) / 1461;
            c == 400 * a + 100 * g + v && t2 - 365 * c - c / 4 + 25568 == n + 60
  {
    var d := t + 25508;
    assert (4 * d) / 146097 == 4 * a + g;
    var f := 4 * a + g - 1;
    assert f / 4 == a + (if g == 0 then -1 else 0);
    var t2 := t + f - f / 4;
    assert t2 + 25508 == 146100 * a + 36525 * g + x;
    var c := (4 * t2 + 102035) / 1461;
    assert 4 * t2 + 102035 == 1461 * (400 * a + 100 * g) + (4 * x + 3);
    assert c == 400 * a + 100 * g + v;
    assert c / 4 == 100 * a + 25 * g + v / 4;
  }

  /** Where the March-year's days lie in the year that names it. */
  lemma {:induction false} MarchYear(t: int, a: int, g: int, x: int, v: int, n: int, y: int)
    requires Split(t, a, g, x, v, n) && y == 1900 + 400 * a + 100 * g + v
    ensures t == DaysBeforeYear(y) + n + (if Leap(y) then 60 else 59)
    ensures t == DaysBeforeYear(y + 1) + n - 306
    ensures n == 365 ==> Leap(y + 1)
  {
    hide Leap, DaysBeforeYear;
    LeapParts(a, g, v);
    BeforeParts(a, g, v);
    NextYear(y);
    LeapParts(a, g, v + 1);
  }

  lemma {:induction false} LeapParts(a: int, g: int, v: int)
    requires 0 <= g < 4 && 0 <= v <= 100
    ensures Leap(1900 + 400 * a + 100 * g + v)
       <==> v % 4 == 0 && (v % 100 != 0 || g == (if v == 100 then 0 else 1))
  {
    var y := 1900 + 400 * a + 100 * g + v;
    var k := 300 + 100 * g + v;
    ModDrop(y, v, 475 + 100 * a + 25 * g, 4);
    ModDrop(y, v, 19 + 4 * a + g, 100);
    if k < 400 {
      DivModUnique(y, 400, 4 + a, k);
    } else {
      DivModUnique(y, 400, 5 + a, k - 400);
    }
  }

  lemma {:induction false} BeforeParts(a: int, g: int, v: int)
    requires 0 <= g < 4 && 0 <= v < 100
    ensures DaysBeforeYear(1900 + 400 * a + 100 * g + v)
         == 146097 * a + 36524 * g + 365 * v + (v + 3) / 4 - (if v >= 1 then 1 else 0)
          + (if g >= 2 || (g == 1 && v >= 1) then 1 else 0) - 25567
  {
    var y := 1900 + 400 * a + 100 * g + v;
    assert (y - 1) / 4 == 474 + 100 * a + 25 * g + (v + 3) / 4;
    assert (y - 1) / 100 == 18 + 4 * a + g + (if v >= 1 then 1 else 0);
    assert (y - 1) / 400 == 4 + a + (if g >= 2 || (g == 1 && v >= 1) then 1 else 0);
  }

  /** `yday * 5 + 8` over 153 is the month of a leap year, with January and February as 12 and 13. */
  lemma {:induction false} MonthFormula(yday: int)
    requires 60 <= yday <= 425
    ensures var mon, mday := (yday * 5 + 8) / 153, 1 + ((yday * 5 + 8) % 153) / 5;
            && 2 <= mon <= 13
            && (yday < 366 <==> mon < 12)
            && yday == LeapOffset(mon) + mday - 1
            && 1 <= mday && yday < LeapOffset(mon + 1)
  {
    var a := yday * 5 + 8;
    var mon, r := a / 153, a % 153;
    assert a == 153 * mon + r;
    var q, s := r / 5, r % 5;
    assert r == 5 * q + s;
    assert 5 * (yday - q) == 153 * mon + s - 8;
  }

  /** Days of a leap year before month m, months 12 and 13 being the next January and February. */
  ghost function LeapOffset(m: int): int
    requires 2 <= m <= 14
  {
    if m == 2 then 60 else if m == 3 then 91 else if m == 4 then 121 else if m == 5 then 152
    else if m == 6 then 182 else if m == 7 then 213 else if m == 8 then 244 else if m == 9 then 274
    else if m == 10 then 305 else if m == 11 then 335 else if m == 12 then 366 else if m == 13 then 397 else 426
  }

  lemma {:induction false} MonthTable(y: int)
    ensures DaysBeforeMonth(y, 0) == 0 && DaysBeforeMonth(y, 1) == 31
    ensures forall m :: 2 <= m <= 11 ==> DaysBeforeMonth(y, m) == LeapOffset(m) - (if Leap(y) then 0 else 1)
    ensures forall m :: 2 <= m <= 11 ==> MonthLength(y, m) == LeapOffset(m + 1) - LeapOffset(m)
  {
    var k := if Leap(y) then 0 else 1;
    assert DaysBeforeMonth(y, 1) == 31;
    assert DaysBeforeMonth(y, 2) == 60 - k;
    assert DaysBeforeMonth(y, 3) == 91 - k;
    assert DaysBeforeMonth(y, 4) == 121 - k;
    assert DaysBeforeMonth(y, 5) == 152 - k;
    assert DaysBeforeMonth(y, 6) == 182 - k;
    assert DaysBeforeMonth(y, 7) == 213 - k;
    assert DaysBeforeMonth(y, 8) == 244 - k;
    assert DaysBeforeMonth(y, 9) == 274 - k;
    assert DaysBeforeMonth(y, 10) == 305 - k;
    assert DaysBeforeMonth(y, 11) == 335 - k;
  }

  /** The date the source computes from the days since 1970, with exact integers. */
  function ClosedForm(days: int): Date
  {
    var f := (4 * days + 102032) / 146097 - 1;
    var t := days + f - f / 4;
    var c := (4 * t + 102035) / 1461;
    var yday := t - 365 * c - c / 4 + 25568;
    DateFrom(c, yday)
  }

  function DateFrom(c: int, yday: int): Date
  {
    var mon := (yday * 5 + 8) / 153;
    var mday := 1 + ((yday * 5 + 8) % 153) / 5;
    if mon >= 12 then Date(1900 + c + 1, mon - 12, mday, yday - 366)
    else Date(1900 + c, mon, mday, if Leap(1900 + c) then yday else yday - 1)
  }

  /** For every day, before 1970 and after: the closed form is the counted date. */
  lemma {:induction false} ClosedFormIsCounting(days: int)
    ensures ClosedForm(days) == DateOf(days)
  {
    hide DaysBeforeYear, LeapOffset, DaysBeforeMonth, DateOf, Leap;
    var a, g, x, v, n := SplitExists(days);
    CenturyCorrection(days, a, g, x, v, n);
    var y := 1900 + 400 * a + 100 * g + v;
    MarchYear(days, a, g, x, v, n, y);
    MonthFormula(n + 60);
    var mon, mday := ((n + 60) * 5 + 8) / 153, 1 + (((n + 60) * 5 + 8) % 153) / 5;
    if mon < 12 {
      SameYear(days, y, mon, mday, n);
    } else {
      NewYear(days, y + 1, mon - 12, mday, n);
    }
  }

  lemma {:induction false} SameYear(days: int, y: int, mon: int, mday: int, n: int)
    requires 2 <= mon < 12 && n + 60 == LeapOffset(mon) + mday - 1 && 1 <= mday && n + 60 < LeapOffset(mon + 1)
    requires 0 <= n && n + 60 < 366
    requires days == DaysBeforeYear(y) + n + (if Leap(y) then 60 else 59)
    ensures DateOf(days) == Date(y, mon, mday, if Leap(y) then n + 60 else n + 59)
  {
    MonthTable(y);
    hide DaysBeforeYear, LeapOffset, DaysBeforeMonth, DateOf;
    DateUnique(days, y, mon, mday, if Leap(y) then n + 60 else n + 59);
  }

  lemma {:induction false} NewYear(days: int, y: int, mon: int, mday: int, n: int)
    requires 0 <= mon <= 1 && n + 60 == LeapOffset(mon + 12) + mday - 1 && 1 <= mday && n + 60 < LeapOffset(mon + 13)
    requires 306 <= n <= 365 && (n == 365 ==> Leap(y))
    requires days == DaysBeforeYear(y) + n - 306
    ensures DateOf(days) == Date(y, mon, mday, n - 306)
  {
    MonthTable(y);
    hide DaysBeforeYear, DaysBeforeMonth, DateOf;
    DateUnique(days, y, mon, mday, n - 306);
  }

  // ---------------------------------------------------------------------
  // The function itself
  // ---------------------------------------------------------------------

  /** Conversion to a 32-bit int. */
  function Int32(x: int): int
  {
    (x + 0x8000_0000) % 0x1_0000_0000 - 0x8000_0000
  }

  lemma {:induction false} Int32Range(x: int)
    ensures Int32(x) == x <==> -0x8000_0000 <= x < 0x8000_0000
  {
  }

  lemma {:induction false} YearWalkSound(y: int, rest: int)
    ensures var (goal, yday) := YearAndDay(y, rest);
            yday < YearLength(goal) && DaysBeforeYear(y) + rest == DaysBeforeYear(goal) + yday
    decreases rest < 0, if rest < 0 then -rest else rest
  {
    hide DaysBeforeYear;
    if rest < 0 {
      NextYear(y - 1);
      YearWalkSound(y - 1, rest + YearLength(y - 1));
    } else if rest >= YearLength(y) {
      NextYear(y);
      YearWalkSound(y + 1, rest - YearLength(y));
    }
  }

  /**
   The 32-bit year field holds the true year exactly for the timestamps from
   1 January of the year 1900 - 2^31 to the last second of the year 1900 + 2^31 - 1.
   */
  lemma {:induction false} YearFieldExactWhen(ts: int)
    ensures var y := DateOf(ts / 86400).year - 1900;
            Int32(y) == y <==> -67768040609740800 <= ts <= 67768036191676799
  {
    hide DaysBeforeYear, DateOf, Int32, YearLength;
    var days := ts / 86400;
    var y := DateOf(days).year;
    Int32Range(y - 1900);
    YearContains(days);
    YearFieldEnds();
    var low, high := -2147481748, 2147485548;
    if y < low {
      YearsApart(y, low);
    } else if y > low {
      YearsApart(low, y);
    }
    if y < high {
      YearsApart(y, high);
    } else if y > high {
      YearsApart(high, y);
    }
  }

  lemma {:induction false} YearContains(days: int)
    ensures var y := DateOf(days).year; DaysBeforeYear(y) <= days < DaysBeforeYear(y) + YearLength(y)
  {
    YearWalkSound(1970, days);
    assert DaysBeforeYear(1970) == 0;
    var r := YearAndDay(1970, days);
    assert r.1 < YearLength(r.0);
    assert days == DaysBeforeYear(r.0) + r.1;
    assert DateOf(days).year == r.0;
  }

  lemma {:induction false} YearFieldEnds()
    ensures DaysBeforeYear(-2147481748) == -784352321872
    ensures DaysBeforeYear(2147485548) == 784352270737
  {
  }

  class Tm {
    var sec: int
    var min: int
    var hour: int
    var mday: int
    var mon: int
    var year: int
    var wday: int
    var yday: int
    var isdst: int

    constructor () {}
  }

  lemma {:induction false} LeapTest(c: int)
    ensures (c % 4 == 0 && (TruncMod(c, 100) != 0 || TruncMod(c + 300, 400) == 0)) <==> Leap(1900 + c)
  {
    assert TruncMod(c, 100) == 0 <==> c % 100 == 0;
    assert TruncMod(c + 300, 400) == 0 <==> (c + 300) % 400 == 0;
    assert (1900 + c) % 400 == (c + 300) % 400;
  }

  method GlobalTime(ts: int, tm: Tm) returns (ok: bool)
    requires -0x8000_0000_0000_0000 <= ts < 0x8000_0000_0000_0000
    modifies tm
    ensures ok
    ensures tm.sec == (ts % 86400) % 60 && tm.min == (ts % 86400) / 60 % 60 && tm.hour == (ts % 86400) / 3600
    ensures tm.wday == (ts / 86400 + 4) % 7
    ensures var date := DateOf(ts / 86400);
            tm.mon == date.month && tm.mday == date.day && tm.yday == date.yday && tm.year == Int32(date.year - 1900)
    ensures tm.isdst == 0
  {
    hide DateOf, ClosedForm;
    var t := TimeOfDay(ts, tm);
    FloorFix(t + 4, 7);
    var f := TruncMod(t + 4, 7);
    if f < 0 {
      f := f + 7;
    }
    tm.wday := f;
    ClosedFormIsCounting(t);
    Day(t, tm);
    tm.isdst := 0;
    ok := true;
  }

  /** The time of day, and the day it belongs to. */
  method TimeOfDay(ts: int, tm: Tm) returns (t: int)
    modifies tm
    ensures t == ts / 86400
    ensures tm.sec == (ts % 86400) % 60 && tm.min == (ts % 86400) / 60 % 60 && tm.hour == (ts % 86400) / 3600
  {
    FloorFix(ts, 86400);
    t := TruncDiv(ts, 86400);
    var hms := TruncMod(ts, 86400);
    if hms < 0 {
      t := t - 1;
      hms := hms + 86400;
    }
    tm.sec := hms % 60;
    hms := hms / 60;
    tm.min := hms % 60;
    tm.hour := hms / 60;
  }

  /** Year, month and day. */
  method Day(days: int, tm: Tm)
    requires -107_000_000_000_000 <= days <= 107_000_000_000_000
    modifies tm`mon, tm`mday, tm`year, tm`yday
    ensures var date := ClosedForm(days);
            tm.mon == date.month && tm.mday == date.day && tm.yday == date.yday && tm.year == Int32(date.year - 1900)
  {
    hide TruncMod, Leap, Int32;
    var t, c := MarchYearOf(days);
    LeapTest(c);
    var yday := t - 365 * c - c / 4 + 25568;
    var a := yday * 5 + 8;
    tm.mon := a / 153;
    a := a % 153;
    tm.mday := 1 + a / 5;
    if tm.mon >= 12 {
      tm.mon := tm.mon - 12;
      c := c + 1;
      yday := yday - 366;
    } else if !(c % 4 == 0 && (TruncMod(c, 100) != 0 || TruncMod(c + 300, 400) == 0)) {
      yday := yday - 1;
    }
    tm.year := Int32(c);
    tm.yday := yday;
  }

  /** The century correction of the 64-bit branch. No intermediate value leaves 64 bits. */
  method MarchYearOf(days: int) returns (t: int, c: int)
    requires -107_000_000_000_000 <= days <= 107_000_000_000_000
    ensures var f := (4 * days + 102032) / 146097 - 1;
            t == days + f - f / 4 && c == (4 * t + 102035) / 1461
  {
    t := days;
    c := t * 4 + 102032;
    assert -0x8000_0000_0000_0000 <= c < 0x8000_0000_0000_0000;
    FloorFix(c, 146097);
    var f := TruncDiv(c, 146097);
    if TruncMod(c, 146097) < 0 {
      f := f - 1;
    }
    hide TruncDiv, TruncMod;
    f := f - 1;
    t := t + f;
    f := f / 4;
    t := t - f;
    f := t * 4 + 102035;
    assert -0x8000_0000_0000_0000 <= f < 0x8000_0000_0000_0000;
    FloorFix(f, 1461);
    c := TruncDiv(f, 1461);
    if TruncMod(f, 1461) < 0 {
      c := c - 1;
    }
  }
}
