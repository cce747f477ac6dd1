/** Seconds to fields (timesub) and fields to seconds (time2sub) of libcutils/tztime.c, in a zone with
    one fixed offset and no leap seconds. time_t and long have 64 bits, int has 32. */
module TzTime {
  import opened Common
  import opened TzCalendar

  const LONG_MIN: int := -0x8000_0000_0000_0000
  const LONG_MAX: int := 0x7fff_ffff_ffff_ffff

  // ----- Seconds to fields

  /** A year that an int holds, and the year before it too. */
  predicate YearFits(y: int) { InInt(y) && InInt(y - 1) }

  /** The civil time of second `t` in the zone, unless its year does not fit an int. */
  ghost function LocalTime(t: int, off: int): Option<Tm> {
    var tm := Civil(t + off);
    if YearFits(YearOf(CDiv(t, SECS_PER_DAY))) && InInt(tm.year + TM_YEAR_BASE) && InInt(tm.year) then Some(tm)
    else None
  }

  /** A jump of the year loop goes towards the year of the day and not past it. */
  lemma JumpStaysShort(y: int, tdays: int, delta: int)
    requires !(0 <= tdays < YearLen(y))
    requires delta == if CDiv(tdays, 366) != 0 then CDiv(tdays, 366) else if tdays < 0 then -1 else 1
    ensures var rest := tdays - (DaysBefore(y + delta) - DaysBefore(y));
            && (tdays >= 0 ==> delta > 0 && 0 <= rest < tdays)
            && (tdays < 0 ==> delta < 0 && tdays < rest && (rest >= 0 ==> rest < YearLen(y + delta)))
  {
    hide DaysBefore;
    if tdays >= 0 {
      YearSpan(y, delta);
      YearStep(y);
    } else {
      YearSpan(y + delta, -delta);
      YearStep(y - 1);
    }
  }

  /** A jump that does not fit an int cannot end in a year that does. */
  lemma BigJumpLeaves(y: int, tdays: int)
    requires InInt(y) && (if tdays >= 0 then EPOCH_YEAR <= y else y <= EPOCH_YEAR)
    requires !InInt(CDiv(tdays, 366))
    ensures !InInt(YearOf(DaysBefore(y) + tdays))
  {
    hide DaysBefore;
    var z := YearOf(DaysBefore(y) + tdays);
    if InInt(z) {
      if tdays >= 0 {
        YearsInOrder(z + 1, y);
        YearSpanTight(y, z + 1 - y);
      } else {
        YearsInOrder(y, z);
        YearSpanTight(z, y - z);
      }
      assert false;
    }
  }

  /** The years from `y` to the year of the day, in order. */
  lemma YearsBetween(y: int, delta: int, d: int)
    requires delta > 0 ==> DaysBefore(y + delta) <= d
    requires delta < 0 ==> d < DaysBefore(y + delta + 1)
    ensures delta > 0 ==> y < y + delta <= YearOf(d)
    ensures delta < 0 ==> YearOf(d) <= y + delta < y
  {
    hide DaysBefore;
    if delta > 0 {
      YearsInOrder(YearOf(d) + 1, y + delta);
    } else if delta < 0 {
      YearsInOrder(y + delta + 1, YearOf(d));
    }
  }

  /** The year loop of timesub. */
  method FindYear(days: int) returns (r: Option<(int, int)>)
    ensures r == if YearFits(YearOf(days)) then Some((YearOf(days), days - DaysBefore(YearOf(days)))) else None
  {
    hide DaysBefore, LeapsThru, YearLen;
    var y, tdays := EPOCH_YEAR, days;
    ghost var astray := false;
    assert DaysBefore(EPOCH_YEAR) == 0 by { EpochIsDayZero(); }
    YearLenPositive(EPOCH_YEAR);
    while tdays < 0 || tdays >= YearLen(y)
      invariant if astray then y == INT_MIN && tdays < -366 && YearOf(days) <= INT_MIN
                else OnTheWay(y, tdays, days)
      decreases !astray, tdays < 0, if tdays < 0 then -tdays else tdays
    {
      var tdelta := CDiv(tdays, 366);
      if !InInt(tdelta) {
        if !astray {
          BigJumpLeaves(y, tdays);
        }
        return None;
      }
      var idelta := if tdelta != 0 then tdelta else if tdays < 0 then -1 else 1;
      IncrementOverflowExact(y, idelta);
      var (over, newy) := IncrementOverflow(y, idelta);
      if !astray {
        YearJump(y, tdays, idelta, days);
      }
      assert astray ==> over;
      if over {
        return None;
      }
      var leapdays := LeapsThru(Wrap32(newy - 1)) - LeapsThru(y - 1);
      if newy == INT_MIN {
        LeapsAtTheEnd(y);
        astray := true;
      }
      YearDifference(y, newy);
      tdays := tdays - (newy - y) * 365 - leapdays;
      y := newy;
    }
    YearStep(y);
    YearIsUnique(days, y, YearOf(days));
    r := Some((y, tdays));
  }

  const INT_MIN: int := -0x8000_0000

  /** The state of the year loop while its arithmetic is exact. */
  ghost predicate OnTheWay(y: int, tdays: int, days: int) {
    && YearFits(y) && DaysBefore(y) + tdays == days
    && (days >= 0 ==> EPOCH_YEAR <= y && 0 <= tdays)
    && (days < 0 ==> y <= EPOCH_YEAR && tdays < YearLen(y))
  }

  lemma YearJump(y: int, tdays: int, delta: int, days: int)
    requires OnTheWay(y, tdays, days) && !(0 <= tdays < YearLen(y))
    requires delta == if CDiv(tdays, 366) != 0 then CDiv(tdays, 366) else if tdays < 0 then -1 else 1
    ensures var rest := tdays - (DaysBefore(y + delta) - DaysBefore(y));
            && DaysBefore(y + delta) + rest == days
            && (days >= 0 ==> EPOCH_YEAR <= y + delta <= YearOf(days) && 0 <= rest < tdays)
            && (days < 0 ==> YearOf(days) <= y + delta <= EPOCH_YEAR && tdays < rest < YearLen(y + delta))
  {
    hide DaysBefore, YearLen;
    JumpStaysShort(y, tdays, delta);
    YearStep(y + delta);
    YearLenPositive(y + delta);
    YearsBetween(y, delta, days);
  }

  lemma YearLenPositive(y: int)
    ensures 365 <= YearLen(y) <= 366
  {
  }

  /** At the first year an int holds, the year before it wraps around, and the leap days come out far too
      many. */
  lemma LeapsAtTheEnd(y: int)
    ensures LeapsThru(Wrap32(INT_MIN - 1)) - LeapsThru(INT_MIN - 1) > 1_000_000
    ensures YearLen(INT_MIN) <= 366
  {
    LeapsThruRoundsDown(INT_MIN - 1);
    LeapsThruRoundsDown(0x7fff_ffff);
    assert Wrap32(INT_MIN - 1) == 0x7fff_ffff;
  }

  lemma EpochIsDayZero()
    ensures DaysBefore(EPOCH_YEAR) == 0
  {
  }

  lemma YearDifference(y: int, z: int)
    ensures DaysBefore(z) - DaysBefore(y) == (z - y) * 365 + LeapsThru(z - 1) - LeapsThru(y - 1)
  {
  }

  lemma SameDay(x: int, q: int, r: int)
    requires x == q * SECS_PER_DAY + r && 0 <= r < SECS_PER_DAY
    ensures x / SECS_PER_DAY == q && x % SECS_PER_DAY == r
  {
    DivModUniqueInt(q, r, SECS_PER_DAY);
  }

  /** The seconds and days after the offset has been added. */
  method CarryDays(rem0: int, days0: int) returns (rem: int, days: int)
    ensures rem == rem0 % SECS_PER_DAY && days == days0 + rem0 / SECS_PER_DAY
  {
    rem, days := rem0, days0;
    while rem < 0
      invariant rem - rem0 == (days0 - days) * SECS_PER_DAY && (rem0 >= 0 ==> rem == rem0) && (rem0 < 0 ==> rem < SECS_PER_DAY)
    {
      rem, days := rem + SECS_PER_DAY, days - 1;
    }
    while rem >= SECS_PER_DAY
      invariant rem - rem0 == (days0 - days) * SECS_PER_DAY && 0 <= rem
    {
      rem, days := rem - SECS_PER_DAY, days + 1;
    }
    SameDay(rem0, days - days0, rem);
  }

  /** The two loops that bring the day into its year. */
  method CarryYears(y0: int, days0: int) returns (r: Option<(int, int)>)
    requires InInt(y0)
    ensures var d := DaysBefore(y0) + days0;
            r == if InInt(YearOf(d)) then Some((YearOf(d), d - DaysBefore(YearOf(d)))) else None
  {
    hide DaysBefore;
    ghost var d := DaysBefore(y0) + days0;
    var y, days := y0, days0;
    while days < 0
      invariant InInt(y) && DaysBefore(y) + days == d && (days0 >= 0 ==> days == days0)
      invariant days0 < 0 ==> days < YearLen(y)
    {
      YearStep(y - 1);
      YearsBetween(y, -1, d);
      IncrementOverflowExact(y, -1);
      var (over, newy) := IncrementOverflow(y, -1);
      if over {
        return None;
      }
      y := newy;
      days := days + YearLen(y);
    }
    while days >= YearLen(y)
      invariant InInt(y) && DaysBefore(y) + days == d && 0 <= days
    {
      YearStep(y);
      YearsBetween(y, 1, d);
      days := days - YearLen(y);
      IncrementOverflowExact(y, 1);
      var (over, newy) := IncrementOverflow(y, 1);
      if over {
        return None;
      }
      y := newy;
    }
    YearStep(y);
    YearIsUnique(d, y, YearOf(d));
    r := Some((y, days));
  }

  /** The weekday formula of timesub; the difference of the years is an int. */
  function WeekdayFormula(y: int, days: int): int {
    var w := EPOCH_WDAY + CMod(Wrap32(y - EPOCH_YEAR), 7) + LeapsThru(y - 1) - LeapsThru(EPOCH_YEAR - 1) + days;
    if CMod(w, 7) < 0 then CMod(w, 7) + 7 else CMod(w, 7)
  }

  /** It gives the weekday if and only if that difference fits; otherwise it is four days off. */
  lemma WeekdayOfDay(y: int, days: int)
    requires InInt(y) && InInt(y - TM_YEAR_BASE)
    ensures var right := (EPOCH_WDAY + DaysBefore(y) + days) % 7;
            && WeekdayFormula(y, days) == (if InInt(y - EPOCH_YEAR) then right else (right + 4) % 7)
            && (WeekdayFormula(y, days) == right <==> InInt(y - EPOCH_YEAR))
  {
    hide LeapsThru, CMod, CDiv;
    var n := y - EPOCH_YEAR;
    var k := Wrap32(n);
    var w := EPOCH_WDAY + CMod(k, 7) + LeapsThru(y - 1) - LeapsThru(EPOCH_YEAR - 1) + days;
    var x := EPOCH_WDAY + DaysBefore(y) + days;
    FloorOfCMod(w);
    assert k == n || k == n + 0x1_0000_0000;
    CModIs(k);
    Mod7(w, 52 * n + CDiv(k, 7));
    if k == n {
      assert x == w + 7 * (52 * n + CDiv(k, 7));
    } else {
      assert x + 4 == w + 7 * (52 * n + CDiv(k, 7)) - 7 * 613566756;
      Mod7(x + 4, 613566756);
    }
  }

  lemma CModIs(k: int)
    ensures CMod(k, 7) == k - 7 * CDiv(k, 7)
  {
  }

  lemma FloorOfCMod(w: int)
    ensures (if CMod(w, 7) < 0 then CMod(w, 7) + 7 else CMod(w, 7)) == w % 7
  {
  }

  lemma Mod7(w: int, k: int)
    ensures (w + 7 * k) % 7 == w % 7
  {
    DivModUniqueInt(w / 7 + k, w % 7, 7);
    assert w + 7 * k == (w / 7 + k) * 7 + w % 7;
  }

  /** The month loop at the end of timesub. */
  method FindMonth(leap: bool, yday: int) returns (mon: int, mday: int)
    requires 0 <= yday < MonthStart(leap, 12)
    ensures 0 <= mon < 12 && mon == MonthFrom(leap, yday, 0) && mday == yday - MonthStart(leap, mon) + 1
  {
    mon := 0;
    var idays := yday;
    while idays >= MonthLen(leap, mon)
      invariant 0 <= mon < 12 && 0 <= idays == yday - MonthStart(leap, mon)
      invariant MonthFrom(leap, yday, 0) == MonthFrom(leap, yday, mon)
      decreases 12 - mon
    {
      idays := idays - MonthLen(leap, mon);
      mon := mon + 1;
    }
    mday := idays + 1;
  }

  /** The fields as timesub leaves them: in the first seventy years that tm_year holds, the weekday is four
      days off. */
  function Stored(tm: Tm): (s: Tm)
    ensures SameFields(s, tm) && s.yday == tm.yday
  {
    if InInt(tm.year + TM_YEAR_BASE - EPOCH_YEAR) then tm else tm.(wday := (tm.wday + 4) % 7)
  }

  /** timesub: it ends, and yields the civil time of `t + off`, or nothing when a year does not fit. */
  method Timesub(t: int, off: int) returns (r: Option<Tm>)
    ensures r == if LocalTime(t, off).Some? then Some(Stored(LocalTime(t, off).value)) else None
  {
    hide DaysBefore, MonthStart, IsLeap, LeapsThru, WeekdayFormula;
    var tdays := CDiv(t, SECS_PER_DAY);
    var rem := t - tdays * SECS_PER_DAY;
    var found := FindYear(tdays);
    if found == None {
      return None;
    }
    var y, idays := found.value.0, found.value.1;
    ghost var before := DaysBefore(y);
    rem, idays := CarryDays(rem + off, idays);
    ghost var d := (t + off) / SECS_PER_DAY;
    SplitSum(t + off, tdays, t - tdays * SECS_PER_DAY + off);
    assert before + idays == d;
    found := CarryYears(y, idays);
    if found == None {
      return None;
    }
    y, idays := found.value.0, found.value.1;
    IncrementOverflowExact(y, -TM_YEAR_BASE);
    var (over, year) := IncrementOverflow(y, -TM_YEAR_BASE);
    if over {
      return None;
    }
    WeekdayOfDay(y, idays);
    var wday := WeekdayFormula(y, idays);
    YearStep(y);
    MonthsOfYear(IsLeap(y));
    var mon, mday := FindMonth(IsLeap(y), idays);
    var hour := rem / 3600;
    ClockParts(rem);
    rem := rem % 3600;
    r := Some(Tm(rem % 60, rem / 60, hour, mday, mon, year, wday, idays));
  }

  lemma ClockParts(rem: int)
    requires 0 <= rem < SECS_PER_DAY
    ensures rem % 3600 / 60 == rem / 60 % 60 && rem % 3600 % 60 == rem % 60
  {
  }

  lemma SplitSum(x: int, q: int, r: int)
    requires x == q * SECS_PER_DAY + r
    ensures x / SECS_PER_DAY == q + r / SECS_PER_DAY && x % SECS_PER_DAY == r % SECS_PER_DAY
  {
    SameDay(x, q + r / SECS_PER_DAY, r % SECS_PER_DAY);
  }
}
