/** The civil calendar that libcutils/tztime.c computes with, and the time of day it assigns to a
    number of seconds. */
module TzCalendar {
  import opened Common

  const EPOCH_YEAR: int := 1970
  const EPOCH_WDAY: int := 4
  const TM_YEAR_BASE: int := 1900
  const SECS_PER_DAY: int := 86400

  // ----- C arithmetic

  /** Division and remainder of C, which round towards zero. */
  function CDiv(a: int, b: int): int
    requires b > 0
  {
    if a >= 0 then a / b else -((-a) / b)
  }

  function CMod(a: int, b: int): int
    requires b > 0
  {
    a - b * CDiv(a, b)
  }

  predicate InInt(x: int) { -0x8000_0000 <= x < 0x8000_0000 }

  predicate InLong(x: int) { -0x8000_0000_0000_0000 <= x < 0x8000_0000_0000_0000 }

  /** increment_overflow: whether the addition overflowed, and the wrapped sum. */
  function IncrementOverflow(number: int, delta: int): (bool, int) {
    var sum := Wrap32(number + delta);
    (if delta >= 0 then sum < number else sum > number, sum)
  }

  /** The comparison detects an overflow exactly. */
  lemma IncrementOverflowExact(number: int, delta: int)
    requires InInt(number) && InInt(delta)
    ensures var (over, sum) := IncrementOverflow(number, delta);
            (over <==> !InInt(number + delta)) && (!over ==> sum == number + delta)
  {
  }

  // ----- Years

  predicate IsLeap(y: int) { y % 4 == 0 && (y % 100 != 0 || y % 400 == 0) }

  function YearLen(y: int): int { if IsLeap(y) then 366 else 365 }

  /** leaps_thru_end_of. */
  function LeapsThru(y: int): int
    decreases if y < 0 then 1 else 0
  {
    if y >= 0 then y / 4 - y / 100 + y / 400 else -(LeapsThru(-(y + 1)) + 1)
  }

  /** The days from the epoch to the first day of year `y`. */
  function DaysBefore(y: int): int {
    365 * (y - EPOCH_YEAR) + LeapsThru(y - 1) - LeapsThru(EPOCH_YEAR - 1)
  }

  /** leaps_thru_end_of rounds down on both sides of year 0. */
  lemma LeapsThruRoundsDown(y: int)
    ensures LeapsThru(y) == y / 4 - y / 100 + y / 400
  {
    if y < 0 {
      NegativeDiv(y, 4);
      NegativeDiv(y, 100);
      NegativeDiv(y, 400);
    }
  }

  lemma NegativeDiv(y: int, k: int)
    requires y < 0 && k > 0
    ensures y / k == -((-(y + 1)) / k) - 1
  {
    var z := -(y + 1);
    var q, r := z / k, z % k;
    assert z == q * k + r;
    assert y == (-q - 1) * k + (k - 1 - r);
    DivModUniqueInt(-q - 1, k - 1 - r, k);
  }

  lemma DivModUniqueInt(q: int, r: int, d: int)
    requires 0 <= r < d
    ensures (q * d + r) / d == q && (q * d + r) % d == r
  {
    var x := q * d + r;
    assert x == (x / d) * d + x % d;
    assert (q - x / d) * d == x % d - r;
    SmallMultiple(q - x / d, d, x % d - r);
  }

  lemma DivStep(y: int, k: int)
    requires k > 1
    ensures y / k - (y - 1) / k == if y % k == 0 then 1 else 0
  {
    var q, r := y / k, y % k;
    assert y == q * k + r;
    if r == 0 {
      assert y - 1 == (q - 1) * k + (k - 1);
      DivModUniqueInt(q - 1, k - 1, k);
    } else {
      DivModUniqueInt(q, r - 1, k);
    }
  }

  /** Each year adds its own length. */
  lemma YearStep(y: int)
    ensures DaysBefore(y + 1) == DaysBefore(y) + YearLen(y)
  {
    hide LeapsThru;
    LeapsStep(y);
  }

  lemma Multiples(y: int)
    ensures y % 100 == 0 ==> y % 4 == 0
    ensures y % 400 == 0 ==> y % 100 == 0
  {
    if y % 100 == 0 {
      assert y == 4 * (25 * (y / 100)) + 0;
      DivModUniqueInt(25 * (y / 100), 0, 4);
    }
    if y % 400 == 0 {
      assert y == 100 * (4 * (y / 400)) + 0;
      DivModUniqueInt(4 * (y / 400), 0, 100);
    }
  }

  lemma LeapsStep(y: int)
    ensures LeapsThru(y) - LeapsThru(y - 1) == if IsLeap(y) then 1 else 0
  {
    hide LeapsThru;
    LeapsThruRoundsDown(y);
    LeapsThruRoundsDown(y - 1);
    DivStep(y, 4);
    DivStep(y, 100);
    DivStep(y, 400);
    Multiples(y);
  }

  lemma {:induction false} YearSpan(y: int, n: nat)
    ensures 365 * n <= DaysBefore(y + n) - DaysBefore(y) <= 366 * n
    decreases n
  {
    hide DaysBefore;
    if n > 0 {
      YearSpan(y, n - 1);
      YearStep(y + n - 1);
    }
  }

  lemma YearsInOrder(y: int, z: int)
    ensures y < z ==> DaysBefore(y + 1) <= DaysBefore(z)
    ensures y <= z ==> DaysBefore(y) <= DaysBefore(z)
  {
    hide DaysBefore;
    if y < z {
      YearSpan(y + 1, z - y - 1);
    }
    if y <= z {
      YearSpan(y, z - y);
    }
  }

  /** Leap years are among the multiples of 4. */
  lemma {:induction false} LeapCount(a: int, n: nat)
    ensures LeapsThru(a + n) - LeapsThru(a) <= (a + n) / 4 - a / 4
    decreases n
  {
    hide LeapsThru;
    if n > 0 {
      LeapCount(a, n - 1);
      LeapsStep(a + n);
      DivStep(a + n, 4);
    }
  }

  lemma YearSpanTight(y: int, n: nat)
    ensures DaysBefore(y + n) - DaysBefore(y) <= 365 * n + n / 4 + 1
  {
    hide LeapsThru;
    LeapCount(y - 1, n);
    assert (y - 1 + n) / 4 - (y - 1) / 4 <= n / 4 + 1;
  }

  // ----- The year of a day

  ghost predicate InYear(d: int, y: int) { DaysBefore(y) <= d < DaysBefore(y + 1) }

  lemma YearIsUnique(d: int, y: int, z: int)
    requires InYear(d, y) && InYear(d, z)
    ensures y == z
  {
    hide DaysBefore;
    YearsInOrder(y, z);
    YearsInOrder(z, y);
  }

  lemma {:induction false} YearExists(d: int, y: int) returns (z: int)
    ensures InYear(d, z)
    decreases if d < DaysBefore(y) then DaysBefore(y) - d else if d >= DaysBefore(y + 1) then d - DaysBefore(y + 1) + 1 else 0
  {
    hide DaysBefore;
    YearStep(y);
    YearStep(y - 1);
    YearStep(y + 1);
    if d < DaysBefore(y) {
      z := YearExists(d, y - 1);
    } else if d >= DaysBefore(y + 1) {
      z := YearExists(d, y + 1);
    } else {
      z := y;
    }
  }

  lemma SomeYear(d: int)
    ensures exists y :: InYear(d, y)
  {
    var y := YearExists(d, EPOCH_YEAR);
  }

  /** The year that day `d` lies in. */
  ghost function YearOf(d: int): (y: int)
    ensures InYear(d, y)
  {
    SomeYear(d);
    var y :| InYear(d, y);
    y
  }

  // ----- Months

  function MonthLen(leap: bool, m: int): int
    requires 0 <= m < 12
  {
    if m == 1 then (if leap then 29 else 28)
    else if m == 3 || m == 5 || m == 8 || m == 10 then 30
    else 31
  }

  /** The days of a year before month `m`. */
  function MonthStart(leap: bool, m: int): int
    requires 0 <= m <= 12
  {
    if m == 0 then 0 else MonthStart(leap, m - 1) + MonthLen(leap, m - 1)
  }

  lemma MonthsOfYear(leap: bool)
    ensures MonthStart(leap, 12) == if leap then 366 else 365
    ensures MonthStart(leap, 2) == if leap then 60 else 59
  {
    assert MonthStart(leap, 1) == 31;
    assert MonthStart(leap, 2) == 31 + MonthLen(leap, 1);
    assert MonthStart(leap, 3) == MonthStart(leap, 2) + 31;
    assert MonthStart(leap, 4) == MonthStart(leap, 3) + 30;
    assert MonthStart(leap, 5) == MonthStart(leap, 4) + 31;
    assert MonthStart(leap, 6) == MonthStart(leap, 5) + 30;
    assert MonthStart(leap, 7) == MonthStart(leap, 6) + 31;
    assert MonthStart(leap, 8) == MonthStart(leap, 7) + 31;
    assert MonthStart(leap, 9) == MonthStart(leap, 8) + 30;
    assert MonthStart(leap, 10) == MonthStart(leap, 9) + 31;
    assert MonthStart(leap, 11) == MonthStart(leap, 10) + 30;
  }

  /** The starts of the months in one formula: from March on they follow the pattern 31, 30, 31, 30, 31. */
  lemma MonthStartIs(leap: bool, m: int)
    requires 0 <= m < 12
    ensures MonthStart(leap, m) ==
            if m < 2 then 31 * m else (153 * (m - 2) + 2) / 5 + 59 + if leap then 1 else 0
  {
    MonthsOfYear(leap);
    assert MonthStart(leap, 12) == MonthStart(leap, 11) + MonthLen(leap, 11);
    assert MonthStart(leap, 11) == MonthStart(leap, 10) + MonthLen(leap, 10);
    assert MonthStart(leap, 10) == MonthStart(leap, 9) + MonthLen(leap, 9);
    assert MonthStart(leap, 9) == MonthStart(leap, 8) + MonthLen(leap, 8);
    assert MonthStart(leap, 8) == MonthStart(leap, 7) + MonthLen(leap, 7);
    assert MonthStart(leap, 7) == MonthStart(leap, 6) + MonthLen(leap, 6);
    assert MonthStart(leap, 6) == MonthStart(leap, 5) + MonthLen(leap, 5);
    assert MonthStart(leap, 5) == MonthStart(leap, 4) + MonthLen(leap, 4);
    assert MonthStart(leap, 4) == MonthStart(leap, 3) + MonthLen(leap, 3);
    assert MonthStart(leap, 3) == MonthStart(leap, 2) + MonthLen(leap, 2);
    assert MonthStart(leap, 1) == 31;
    assert m == 0 || m == 1 || m == 2 || m == 3 || m == 4 || m == 5 || m == 6 || m == 7 || m == 8 || m == 9
        || m == 10 || m == 11;
  }

  lemma {:induction false} MonthsInOrder(leap: bool, m: int, n: int)
    requires 0 <= m <= n <= 12
    ensures MonthStart(leap, m) <= MonthStart(leap, n)
    ensures m < n ==> MonthStart(leap, m + 1) <= MonthStart(leap, n)
    decreases n - m
  {
    if m < n {
      MonthsInOrder(leap, m + 1, n);
    }
  }

  /** The loop at the end of timesub: the month that day `d` of a year lies in, from month `m` on. */
  function MonthFrom(leap: bool, d: int, m: int): (r: int)
    requires 0 <= m < 12 && MonthStart(leap, m) <= d < MonthStart(leap, 12)
    ensures m <= r < 12 && MonthStart(leap, r) <= d < MonthStart(leap, r + 1)
    decreases 12 - m
  {
    if d < MonthStart(leap, m + 1) then m
    else MonthFrom(leap, d, m + 1)
  }

  // ----- Broken-down time

  datatype Tm = Tm(sec: int, min: int, hour: int, mday: int, mon: int, year: int, wday: int, yday: int)

  /** The six fields that name a second: the ones tmcomp compares. */
  predicate ValidFields(tm: Tm) {
    && 0 <= tm.sec < 60 && 0 <= tm.min < 60 && 0 <= tm.hour < 24 && 0 <= tm.mon < 12
    && 1 <= tm.mday <= MonthLen(IsLeap(tm.year + TM_YEAR_BASE), tm.mon)
  }

  /** The day a date denotes, for any day of the month. */
  function DayNumber(year: int, mon: int, mday: int): int
    requires 0 <= mon < 12
  {
    DaysBefore(year) + MonthStart(IsLeap(year), mon) + mday - 1
  }

  /** The day number of the Gregorian calendar, with years that begin in March: no table of months and no
      list of leap years. Day 719468 of that count is the epoch. */
  lemma DayNumberIs(year: int, mon: int, mday: int)
    requires 0 <= mon < 12
    ensures var y := if mon < 2 then year - 1 else year;
            DayNumber(year, mon, mday) ==
            365 * y + y / 4 - y / 100 + y / 400 + (153 * ((mon + 10) % 12) + 2) / 5 + mday - 1 - 719468
  {
    hide LeapsThru, MonthStart, IsLeap;
    FromMarch(mon);
    LeapsBeforeEpoch();
    MonthStartIs(IsLeap(year), mon);
    if mon < 2 {
      LeapsThruRoundsDown(year - 1);
    } else {
      LeapsThruRoundsDown(year);
      LeapsStep(year);
    }
  }

  lemma FromMarch(mon: int)
    requires 0 <= mon < 12
    ensures (153 * ((mon + 10) % 12) + 2) / 5 == if mon < 2 then 306 + 31 * mon else (153 * (mon - 2) + 2) / 5
  {
  }

  lemma LeapsBeforeEpoch()
    ensures LeapsThru(EPOCH_YEAR - 1) == 477
  {
  }

  /** The seconds from the epoch to the second that the fields name, on the clock of the zone. */
  function Seconds(tm: Tm): int
    requires 0 <= tm.mon < 12
  {
    SECS_PER_DAY * DayNumber(tm.year + TM_YEAR_BASE, tm.mon, tm.mday) + 3600 * tm.hour + 60 * tm.min + tm.sec
  }

  /** The civil time of second `s`. */
  ghost function Civil(s: int): Tm
  {
    var d, r := s / SECS_PER_DAY, s % SECS_PER_DAY;
    var y := YearOf(d);
    YearStep(y);
    MonthsOfYear(IsLeap(y));
    var yday := d - DaysBefore(y);
    var mon := MonthFrom(IsLeap(y), yday, 0);
    Tm(r % 60, r / 60 % 60, r / 3600, yday - MonthStart(IsLeap(y), mon) + 1, mon, y - TM_YEAR_BASE,
       (EPOCH_WDAY + d) % 7, yday)
  }

  lemma TimeOfDay(r: int)
    requires 0 <= r < SECS_PER_DAY
    ensures 0 <= r / 3600 < 24 && 0 <= r / 60 % 60 < 60 && 0 <= r % 60 < 60
    ensures 3600 * (r / 3600) + 60 * (r / 60 % 60) + r % 60 == r
  {
    assert r / 3600 == r / 60 / 60;
  }

  /** The civil time of a second names that second. */
  lemma CivilNamesItsSecond(s: int)
    ensures ValidFields(Civil(s)) && Seconds(Civil(s)) == s
    ensures Civil(s).wday == (EPOCH_WDAY + s / SECS_PER_DAY) % 7
    ensures Civil(s).yday == s / SECS_PER_DAY - DaysBefore(Civil(s).year + TM_YEAR_BASE)
    ensures InYear(s / SECS_PER_DAY, Civil(s).year + TM_YEAR_BASE)
  {
    hide DaysBefore, MonthStart, IsLeap;
    var d := s / SECS_PER_DAY;
    TimeOfDay(s % SECS_PER_DAY);
    MonthEnd(IsLeap(YearOf(d)), Civil(s).mon);
    assert s == SECS_PER_DAY * d + s % SECS_PER_DAY;
  }

  lemma MonthEnd(leap: bool, m: int)
    requires 0 <= m < 12
    ensures MonthStart(leap, m + 1) == MonthStart(leap, m) + MonthLen(leap, m)
  {
  }

  /** A date determines its year, month and day. */
  lemma DateIsUnique(y: int, m: int, d: int, y': int, m': int, d': int)
    requires 0 <= m < 12 && 1 <= d <= MonthLen(IsLeap(y), m)
    requires 0 <= m' < 12 && 1 <= d' <= MonthLen(IsLeap(y'), m')
    requires DayNumber(y, m, d) == DayNumber(y', m', d')
    ensures y == y' && m == m' && d == d'
  {
    hide DaysBefore;
    DateInYear(y, m, d);
    DateInYear(y', m', d');
    YearIsUnique(DayNumber(y, m, d), y, y');
    var leap := IsLeap(y);
    if m < m' {
      MonthsInOrder(leap, m, m');
    } else if m' < m {
      MonthsInOrder(leap, m', m);
    }
  }

  lemma DateInYear(y: int, m: int, d: int)
    requires 0 <= m < 12 && 1 <= d <= MonthLen(IsLeap(y), m)
    ensures InYear(DayNumber(y, m, d), y)
  {
    hide DaysBefore;
    YearStep(y);
    MonthsOfYear(IsLeap(y));
    MonthsInOrder(IsLeap(y), m, 12);
    MonthsInOrder(IsLeap(y), 0, m);
  }

  /** The civil time is the only one: valid fields that name the same second are the same fields. */
  lemma CivilIsUnique(a: Tm, b: Tm)
    requires ValidFields(a) && ValidFields(b) && Seconds(a) == Seconds(b)
    ensures SameFields(a, b)
  {
    hide DayNumber;
    var da := DayNumber(a.year + TM_YEAR_BASE, a.mon, a.mday);
    var db := DayNumber(b.year + TM_YEAR_BASE, b.mon, b.mday);
    assert da == db;
    DateIsUnique(a.year + TM_YEAR_BASE, a.mon, a.mday, b.year + TM_YEAR_BASE, b.mon, b.mday);
  }

  predicate SameFields(a: Tm, b: Tm) {
    && a.sec == b.sec && a.min == b.min && a.hour == b.hour
    && a.mday == b.mday && a.mon == b.mon && a.year == b.year
  }

  /** Earlier fields, field by field from the year down. */
  predicate Earlier(a: Tm, b: Tm) {
    if a.year != b.year then a.year < b.year
    else if a.mon != b.mon then a.mon < b.mon
    else if a.mday != b.mday then a.mday < b.mday
    else if a.hour != b.hour then a.hour < b.hour
    else if a.min != b.min then a.min < b.min
    else a.sec < b.sec
  }

  /** tmcomp: the differences are ints, and the one of the years may wrap around. */
  function TmComp(a: Tm, b: Tm): int {
    if a.year != b.year then Wrap32(a.year - b.year)
    else if a.mon != b.mon then a.mon - b.mon
    else if a.mday != b.mday then a.mday - b.mday
    else if a.hour != b.hour then a.hour - b.hour
    else if a.min != b.min then a.min - b.min
    else a.sec - b.sec
  }

  /** tmcomp orders valid fields as the seconds they name if and only if the difference of the years fits
      an int; otherwise it orders them the other way round. */
  lemma TmCompOrders(a: Tm, b: Tm)
    requires ValidFields(a) && ValidFields(b) && InInt(a.year) && InInt(b.year)
    ensures TmComp(a, b) == 0 <==> SameFields(a, b)
    ensures InInt(a.year - b.year) ==>
              (TmComp(a, b) < 0 <==> Seconds(a) < Seconds(b)) && (TmComp(a, b) > 0 <==> Seconds(a) > Seconds(b))
    ensures !InInt(a.year - b.year) ==>
              (TmComp(a, b) < 0 <==> Seconds(a) > Seconds(b)) && (TmComp(a, b) > 0 <==> Seconds(a) < Seconds(b))
              && Seconds(a) != Seconds(b)
  {
    hide Seconds, MonthLen, IsLeap;
    if Earlier(a, b) {
      EarlierIsLess(a, b);
    } else if Earlier(b, a) {
      EarlierIsLess(b, a);
    } else {
      SameSeconds(a, b);
    }
  }

  lemma SameSeconds(a: Tm, b: Tm)
    requires ValidFields(a) && ValidFields(b) && SameFields(a, b)
    ensures Seconds(a) == Seconds(b)
  {
  }

  lemma EarlierIsLess(a: Tm, b: Tm)
    requires ValidFields(a) && ValidFields(b) && Earlier(a, b)
    ensures Seconds(a) < Seconds(b)
  {
    hide DaysBefore;
    var ya, yb := a.year + TM_YEAR_BASE, b.year + TM_YEAR_BASE;
    DateInYear(ya, a.mon, a.mday);
    DateInYear(yb, b.mon, b.mday);
    if a.year < b.year {
      YearsInOrder(ya, yb);
    } else if a.mon < b.mon {
      MonthsInOrder(IsLeap(ya), a.mon, b.mon);
    }
  }
}
