/** Fields to seconds: time2sub of libcutils/tztime.c normalises the fields and then searches the whole
    range of time_t for the second that timesub turns into them. */
module TzMktime {
  import opened Common
  import opened TzCalendar
  import opened TzTime

  // ----- The search

  lemma LaterYear(a: int, b: int)
    requires a <= b
    ensures YearOf(a) <= YearOf(b)
  {
    hide DaysBefore;
    YearsInOrder(YearOf(b) + 1, YearOf(a));
  }

  lemma CDivMonotone(a: int, b: int)
    requires a <= b
    ensures CDiv(a, SECS_PER_DAY) <= CDiv(b, SECS_PER_DAY)
    ensures a >= 0 ==> CDiv(a, SECS_PER_DAY) >= 0
    ensures b <= 0 ==> CDiv(b, SECS_PER_DAY) <= 0
  {
  }

  lemma CivilYearOf(s: int)
    ensures Civil(s).year + TM_YEAR_BASE == YearOf(s / SECS_PER_DAY)
  {
  }

  lemma YearBounds()
    ensures DaysBefore(1900) == -25567 && DaysBefore(2039) == 25202
    ensures InInt(1900) && InInt(2039)
  {
    LeapsThruRoundsDown(1899);
    LeapsThruRoundsDown(2038);
    LeapsThruRoundsDown(1969);
  }

  /** Within 68 years of the epoch every second has fields. */
  lemma NearEpoch(d: int)
    ensures d >= -25567 ==> YearOf(d) >= 1900
    ensures d < 25202 ==> YearOf(d) < 2039
  {
    hide DaysBefore;
    YearBounds();
    YearsInOrder(YearOf(d) + 1, 1900);
    YearsInOrder(2039, YearOf(d));
  }

  /** A second whose year does not fit lies outside everything that has fields, on the side of its
      sign. */
  lemma ExtremeSeconds(t: int, b: int, off: int)
    requires InInt(off) && LocalTime(t, off) == None && LocalTime(b, off).Some?
    ensures if t > 0 then b < t else t < b
  {
    hide Civil, CDiv;
    CivilYearOf(t + off);
    CivilYearOf(b + off);
    if t > 0 && t <= b {
      CDivMonotone(t, b);
      LaterYear(CDiv(t, SECS_PER_DAY), CDiv(b, SECS_PER_DAY));
      LaterYear((t + off) / SECS_PER_DAY, (b + off) / SECS_PER_DAY);
      NearEpoch(CDiv(t, SECS_PER_DAY));
      NearEpoch((t + off) / SECS_PER_DAY);
    }
    if t <= 0 && b <= t {
      CDivMonotone(b, t);
      LaterYear(CDiv(b, SECS_PER_DAY), CDiv(t, SECS_PER_DAY));
      LaterYear((b + off) / SECS_PER_DAY, (t + off) / SECS_PER_DAY);
      NearEpoch(CDiv(t, SECS_PER_DAY));
      NearEpoch((t + off) / SECS_PER_DAY);
    }
  }

  /** The direction the search takes from `t` is the direction of the second it looks for, if and only if
      the difference of the years fits an int. */
  lemma DirectionIsRight(t: int, off: int, your: Tm)
    requires InInt(off) && ValidFields(your) && InInt(your.year)
    ensures var b := Seconds(your) - off;
            var my := LocalTime(t, off);
            && (my.Some? ==> (TmComp(my.value, your) == 0 <==> t == b))
            && (my.Some? && InInt(my.value.year - your.year) ==>
                  (TmComp(my.value, your) > 0 <==> b < t) && (TmComp(my.value, your) < 0 <==> t < b))
            && (my.Some? && !InInt(my.value.year - your.year) ==>
                  (TmComp(my.value, your) > 0 <==> t < b) && (TmComp(my.value, your) < 0 <==> b < t))
            && (my.None? && LocalTime(b, off).Some? ==> if t > 0 then b < t else t < b)
  {
    hide Seconds, Civil, MonthLen, IsLeap, TmComp;
    var my := LocalTime(t, off);
    if my.Some? {
      CivilNamesItsSecond(t + off);
      TmCompOrders(my.value, your);
      if t + off == Seconds(your) {
        CivilIsUnique(my.value, your);
      }
    } else if LocalTime(Seconds(your) - off, off).Some? {
      ExtremeSeconds(t, Seconds(your) - off, off);
    }
  }

  /** The difference of the years at the first probe, second -1, fits an int: the caller can tell from the
      year and the offset. */
  ghost predicate Reachable(year: int, off: int) { InInt(Civil(off - 1).year - year) }

  lemma FirstProbe(off: int)
    requires InInt(off)
    ensures 0 <= Civil(off - 1).year <= 138 && LocalTime(-1, off) == Some(Civil(off - 1))
  {
    hide Civil;
    CivilYearOf(off - 1);
    NearEpoch((off - 1) / SECS_PER_DAY);
    NearEpoch(0);
  }

  lemma LaterSecond(s: int, t: int)
    requires s <= t
    ensures Civil(s).year <= Civil(t).year
  {
    hide Civil;
    CivilYearOf(s);
    CivilYearOf(t);
    LaterYear(s / SECS_PER_DAY, t / SECS_PER_DAY);
  }

  const TURN: int := -0x80_0000_0000_0000

  lemma DaysOfTheTurn()
    ensures DaysBefore(-0x8000_0000) > CDiv(2 * TURN, SECS_PER_DAY)
    ensures DaysBefore(-2_000_000_000) < (TURN - 0x8000_0000) / SECS_PER_DAY
    ensures DaysBefore(-2_000_000_000) < CDiv(TURN, SECS_PER_DAY)
  {
    LeapsThruRoundsDown(-0x8000_0001);
    LeapsThruRoundsDown(-2_000_000_001);
    LeapsThruRoundsDown(1969);
  }

  /** Half-way down the representable seconds the year is far from both ends. */
  lemma TurningYear(off: int)
    requires InInt(off)
    ensures LocalTime(TURN, off) == Some(Civil(TURN + off)) && -2_000_001_900 <= Civil(TURN + off).year < 0
  {
    hide Civil, DaysBefore;
    DaysOfTheTurn();
    CivilYearOf(TURN + off);
    var d := CDiv(TURN, SECS_PER_DAY);
    YearsInOrder(YearOf(d) + 1, -2_000_000_000);
    YearsInOrder(YearOf((TURN + off) / SECS_PER_DAY) + 1, -2_000_000_000);
    LaterYear(d, 0);
    NearEpoch(0);
    YearBounds();
    YearsInOrder(1900, YearOf((TURN + off) / SECS_PER_DAY));
  }

  /** Twice as far down no second has fields. */
  lemma BelowTheTurn(t: int, off: int)
    requires t <= 2 * TURN
    ensures LocalTime(t, off) == None
  {
    hide Civil, DaysBefore;
    DaysOfTheTurn();
    CDivMonotone(t, 2 * TURN);
    YearsInOrder(-0x8000_0000, YearOf(CDiv(t, SECS_PER_DAY)));
  }

  /** The second with the given fields, if time_t holds it and it has fields at all. */
  ghost function SecondOf(your: Tm, off: int): Option<int>
    requires ValidFields(your)
  {
    var b := Seconds(your) - off;
    if InLong(b) && LocalTime(b, off).Some? then Some(b) else None
  }

  predicate Dyadic(lo: int) {
    || lo == 256 * TURN || lo == 128 * TURN || lo == 64 * TURN || lo == 32 * TURN || lo == 16 * TURN
    || lo == 8 * TURN || lo == 4 * TURN || lo == 2 * TURN
  }

  /** The ranges that the search goes through on its way to `b`. */
  predicate Ranges(lo: int, hi: int, b: int) {
    || (lo == LONG_MIN && hi == LONG_MAX)
    || -1 <= lo
    || (hi <= -1 && (b <= TURN || TURN <= lo || (hi == -1 && Dyadic(lo))))
  }

  function Middle(lo: int, hi: int): (t: int)
    requires lo <= hi
    ensures lo <= t <= hi
  {
    var t := CDiv(lo, 2) + CDiv(hi, 2);
    if t < lo then lo else if t > hi then hi else t
  }

  /** In these ranges no comparison wraps around, if the first one does not. */
  lemma YearsAreClose(lo: int, hi: int, b: int, off: int, your: Tm)
    requires InInt(off) && Ranges(lo, hi, b) && LONG_MIN <= lo <= b <= hi <= LONG_MAX
    requires LocalTime(b, off).Some? && Civil(b + off).year == your.year && Reachable(your.year, off)
    ensures var my := LocalTime(Middle(lo, hi), off); my.Some? ==> InInt(my.value.year - your.year)
  {
    hide Civil, Middle, CDiv;
    var t := Middle(lo, hi);
    FirstProbe(off);
    if LocalTime(t, off).Some? {
      var m, y, first := Civil(t + off).year, your.year, Civil(off - 1).year;
      if lo == LONG_MIN && hi == LONG_MAX {
        assert t == -1 by { MiddleOfAll(); }
      } else if -1 <= lo {
        LaterSecond(off - 1, t + off);
        LaterSecond(off - 1, b + off);
      } else {
        LaterSecond(t + off, off - 1);
        LaterSecond(b + off, off - 1);
        TurningYear(off);
        if b <= TURN {
          LaterSecond(b + off, TURN + off);
        } else {
          if TURN > lo {
            MiddleOfDyadic(lo);
            BelowOrAt(t, off);
          }
          LaterSecond(TURN + off, t + off);
        }
      }
    }
  }

  lemma MiddleOfAll()
    ensures Middle(LONG_MIN, LONG_MAX) == -1
  {
  }

  lemma MiddleOfDyadic(lo: int)
    requires Dyadic(lo)
    ensures Middle(lo, -1) == lo / 2 && (lo / 2 == TURN || (Dyadic(lo / 2) && lo / 2 <= 2 * TURN))
  {
  }

  lemma BelowOrAt(t: int, off: int)
    requires t == TURN || t <= 2 * TURN
    ensures LocalTime(t, off).Some? ==> t == TURN
  {
    if t <= 2 * TURN {
      BelowTheTurn(t, off);
    }
  }

  /** The range after a probe at `t`, unless the search gives up. */
  function Narrowed(lo: int, hi: int, t: int, dir: int): (r: Option<(int, int)>)
    requires LONG_MIN <= lo <= t <= hi <= LONG_MAX
    ensures r.Some? ==> lo <= r.value.0 <= r.value.1 <= hi && r.value.1 - r.value.0 < hi - lo
  {
    if t == lo && t == LONG_MAX then None
    else if t == lo then (if lo + 1 > hi then None else Some(if dir > 0 then (lo + 1, t + 1) else (t + 1, hi)))
    else if t == hi then Some(if dir > 0 then (lo, t - 1) else (t - 1, hi - 1))
    else Some(if dir > 0 then (lo, t) else (t, hi))
  }

  lemma NarrowedKeeps(lo: int, hi: int, b: int, dir: int)
    requires LONG_MIN <= lo <= b <= hi <= LONG_MAX && Ranges(lo, hi, b) && dir != 0
    requires var t := Middle(lo, hi); if dir > 0 then b < t else t < b
    ensures var r := Narrowed(lo, hi, Middle(lo, hi), dir);
            r.Some? && r.value.0 <= b <= r.value.1 && Ranges(r.value.0, r.value.1, b)
  {
    hide Middle;
    if lo == LONG_MIN && hi == LONG_MAX {
      MiddleOfAll();
    } else if lo < -1 && TURN > lo && b > TURN {
      MiddleOfDyadic(lo);
    }
  }

  lemma UnreachableIsBelow(your: Tm, off: int)
    requires InInt(off) && ValidFields(your) && InInt(your.year) && !Reachable(your.year, off)
    ensures Seconds(your) - off < -1 && TmComp(Civil(off - 1), your) < 0
  {
    hide Civil, Seconds, MonthLen, IsLeap, TmComp;
    FirstProbe(off);
    CivilNamesItsSecond(off - 1);
    TmCompOrders(Civil(off - 1), your);
    EarlierIsLess(your, Civil(off - 1));
  }

  lemma FoundYear(your: Tm, off: int)
    requires ValidFields(your)
    ensures Civil(Seconds(your)).year == your.year
  {
    hide Civil, Seconds;
    CivilNamesItsSecond(Seconds(your));
    CivilIsUnique(Civil(Seconds(your)), your);
  }

  /** What the search can still rely on in the range from `lo` to `hi`. */
  ghost predicate OnTrack(lo: int, hi: int, your: Tm, off: int)
    requires ValidFields(your)
  {
    && LONG_MIN <= lo <= hi <= LONG_MAX
    && (Reachable(your.year, off) && SecondOf(your, off).Some? ==>
          lo <= Seconds(your) - off <= hi && Ranges(lo, hi, Seconds(your) - off))
    && (!Reachable(your.year, off) ==> (lo == LONG_MIN && hi == LONG_MAX) || -1 <= lo)
  }

  /** The value that decides the direction at second `t`. */
  ghost function Direction(t: int, off: int, your: Tm): int {
    var my := LocalTime(t, off);
    if my.None? then (if t > 0 then 1 else -1) else TmComp(my.value, your)
  }

  /** One probe: a hit is the second looked for, and a miss keeps the search on its track. */
  lemma ProbeKeepsTrack(lo: int, hi: int, your: Tm, off: int)
    requires InInt(off) && ValidFields(your) && InInt(your.year) && OnTrack(lo, hi, your, off)
    ensures var t := Middle(lo, hi);
            var dir := Direction(t, off, your);
            var next := Narrowed(lo, hi, t, dir);
            && (dir == 0 ==> Reachable(your.year, off) && (InLong(t) ==> SecondOf(your, off) == Some(t)))
            && (dir != 0 && next.Some? ==> OnTrack(next.value.0, next.value.1, your, off))
            && (dir != 0 && next.None? && Reachable(your.year, off) ==> SecondOf(your, off) == None)
  {
    hide Seconds, LocalTime, TmComp, MonthLen, IsLeap, Civil, Ranges, Reachable, Middle;
    var t, b := Middle(lo, hi), Seconds(your) - off;
    DirectionIsRight(t, off, your);
    FoundYear(your, off);
    if Reachable(your.year, off) {
      if SecondOf(your, off).Some? {
        YearsAreClose(lo, hi, b, off, your);
        if Direction(t, off, your) != 0 {
          NarrowedKeeps(lo, hi, b, Direction(t, off, your));
        }
      }
    } else {
      FirstProbe(off);
      UnreachableIsBelow(your, off);
      MiddleOfAll();
    }
  }

  /** The binary search of time2sub: it ends, and finds the second if there is one, provided that the first
      comparison does not wrap around; otherwise it goes up at once and finds nothing. */
  method Search(your: Tm, off: int) returns (r: Option<int>)
    requires InInt(off) && ValidFields(your) && InInt(your.year)
    ensures r == if Reachable(your.year, off) then SecondOf(your, off) else None
  {
    hide OnTrack, LocalTime, TmComp, MonthLen, IsLeap, Civil, Reachable, SecondOf, CDiv, Middle, Stored;
    TrackStarts(your, off);
    var lo, hi := LONG_MIN, LONG_MAX;
    while true
      invariant LONG_MIN <= lo <= hi <= LONG_MAX && OnTrack(lo, hi, your, off)
      decreases hi - lo
    {
      var t := CDiv(lo, 2) + CDiv(hi, 2);
      if t < lo {
        t := lo;
      } else if t > hi {
        t := hi;
      }
      MiddleIs(lo, hi);
      var my := Timesub(t, off);
      StoredCompares(t, off, your);
      var dir := if my.None? then (if t > 0 then 1 else -1) else TmComp(my.value, your);
      ProbeKeepsTrack(lo, hi, your, off);
      if dir == 0 {
        return Some(t);
      }
      ghost var next := Narrowed(lo, hi, t, dir);
      if t == lo {
        if t == LONG_MAX {
          return None;
        }
        t := t + 1;
        lo := lo + 1;
      } else if t == hi {
        if t == LONG_MIN {
          return None;
        }
        t := t - 1;
        hi := hi - 1;
      }
      if lo > hi {
        return None;
      }
      if dir > 0 {
        hi := t;
      } else {
        lo := t;
      }
      assert next == Some((lo, hi));
    }
  }

  lemma TrackStarts(your: Tm, off: int)
    requires ValidFields(your)
    ensures OnTrack(LONG_MIN, LONG_MAX, your, off)
  {
    hide Seconds;
  }

  lemma MiddleIs(lo: int, hi: int)
    requires lo <= hi
    ensures var t := CDiv(lo, 2) + CDiv(hi, 2);
            Middle(lo, hi) == if t < lo then lo else if t > hi then hi else t
  {
  }

  /** The weekday does not take part in the comparison. */
  lemma StoredCompares(t: int, off: int, your: Tm)
    ensures LocalTime(t, off).Some? ==>
              TmComp(Stored(LocalTime(t, off).value), your) == TmComp(LocalTime(t, off).value, your)
  {
    hide LocalTime;
  }

  // ----- Normalising

  /** normalize_overflow: carry `units` into `tens`. */
  function NormalizeOverflow(tens: int, units: int, base: int): (bool, int, int)
    requires base > 0
  {
    var delta := if units >= 0 then units / base else -1 - (-1 - units) / base;
    var (over, sum) := IncrementOverflow(tens, delta);
    (over, sum, units - delta * base)
  }

  /** It carries the floor of the quotient, and reports exactly the sums that do not fit. */
  lemma NormalizeOverflowExact(tens: int, units: int, base: int)
    requires InInt(tens) && InInt(units) && (base == 60 || base == 24)
    ensures var (over, sum, rest) := NormalizeOverflow(tens, units, base);
            && (over <==> !InInt(tens + units / base))
            && (!over ==> sum == tens + units / base) && rest == units % base && 0 <= rest < base
  {
    hide IncrementOverflow;
    if units < 0 {
      NegativeDiv(units, base);
    }
    var q := units / base;
    assert (if units >= 0 then units / base else -1 - (-1 - units) / base) == q;
    assert InInt(q);
    IncrementOverflowExact(tens, q);
  }

  /** One year later on the same day of the same month. */
  lemma SameDateNextYear(y: int, mon: int, mday: int)
    requires 0 <= mon < 12
    ensures DayNumber(y + 1, mon, mday) == DayNumber(y, mon, mday) + YearLen(y + (if 1 < mon then 1 else 0))
  {
    hide DaysBefore;
    YearStep(y);
    if mon > 1 {
      LeapShift(mon);
    } else {
      assert MonthStart(true, mon) == MonthStart(false, mon);
    }
  }

  lemma {:induction false} LeapShift(m: int)
    requires 2 <= m < 12
    ensures MonthStart(true, m) == MonthStart(false, m) + 1
  {
    if m == 2 {
      MonthsOfYear(true);
      MonthsOfYear(false);
    } else {
      LeapShift(m - 1);
    }
  }

  /** The day loops of time2sub: they bring the day into its month without changing the day meant. */
  method NormalizeDay(y0: int, mon0: int, mday0: int) returns (y: int, mon: int, mday: int)
    requires 0 <= mon0 < 12
    ensures 0 <= mon < 12 && 1 <= mday <= MonthLen(IsLeap(y), mon)
    ensures DayNumber(y, mon, mday) == DayNumber(y0, mon0, mday0) && y == YearOf(DayNumber(y0, mon0, mday0))
  {
    hide DaysBefore, MonthStart, IsLeap;
    y, mon, mday := y0, mon0, mday0;
    ghost var d := DayNumber(y0, mon0, mday0);
    while mday <= 0
      invariant DayNumber(y, mon, mday) == d
      decreases -mday
    {
      y := y - 1;
      SameDateNextYear(y, mon, mday);
      mday := mday + YearLen(y + (if 1 < mon then 1 else 0));
    }
    while mday > 366
      invariant DayNumber(y, mon, mday) == d && mday >= 1
      decreases mday
    {
      SameDateNextYear(y, mon, mday);
      mday := mday - YearLen(y + (if 1 < mon then 1 else 0));
      y := y + 1;
    }
    while mday > MonthLen(IsLeap(y), mon)
      invariant 0 <= mon < 12 && DayNumber(y, mon, mday) == d && mday >= 1
      decreases mday
    {
      NextMonth(y, mon, mday);
      mday := mday - MonthLen(IsLeap(y), mon);
      mon := mon + 1;
      if mon >= 12 {
        mon := 0;
        y := y + 1;
      }
    }
    DateInYear(y, mon, mday);
    YearIsUnique(d, y, YearOf(d));
  }

  lemma NextMonth(y: int, mon: int, mday: int)
    requires 0 <= mon < 12
    ensures var (y', mon') := if mon == 11 then (y + 1, 0) else (y, mon + 1);
            DayNumber(y', mon', mday - MonthLen(IsLeap(y), mon)) == DayNumber(y, mon, mday)
  {
    hide DaysBefore;
    MonthEnd(IsLeap(y), mon);
    if mon == 11 {
      YearStep(y);
      MonthsOfYear(IsLeap(y));
    }
  }

  /** The second that any fields denote on the clock of the zone: every field counts as it is, however
      large or small. */
  function Denoted(tm: Tm): int {
    SECS_PER_DAY * DayNumber(tm.year + TM_YEAR_BASE + tm.mon / 12, tm.mon % 12, tm.mday)
    + 3600 * tm.hour + 60 * tm.min + tm.sec
  }

  predicate FieldsAreInts(tm: Tm) {
    InInt(tm.sec) && InInt(tm.min) && InInt(tm.hour) && InInt(tm.mday) && InInt(tm.mon) && InInt(tm.year)
  }

  /** The minutes, hours and days after the carries, as time2sub forms them. */
  function Minutes(tm: Tm, norm: bool): int { if norm then tm.min + tm.sec / 60 else tm.min }

  function Hours(tm: Tm, norm: bool): int { tm.hour + Minutes(tm, norm) / 60 }

  function Days(tm: Tm, norm: bool): int { tm.mday + Hours(tm, norm) / 24 }

  function DayMeant(tm: Tm, norm: bool): int {
    DayNumber(tm.year + TM_YEAR_BASE + tm.mon / 12, tm.mon % 12, Days(tm, norm))
  }

  /** No carry leaves the range of an int, and neither does the year. */
  ghost predicate CarriesFit(tm: Tm, norm: bool) {
    && InInt(Minutes(tm, norm)) && InInt(Hours(tm, norm)) && InInt(Days(tm, norm))
    && InInt(YearOf(DayMeant(tm, norm)) - TM_YEAR_BASE)
  }

  /** The normalised fields: valid but for the seconds, and naming the same second. */
  ghost predicate IsNormal(tm: Tm, norm: bool, your: Tm) {
    && your.sec == (if norm then tm.sec % 60 else tm.sec)
    && ValidFields(your.(sec := 0)) && Seconds(your) == Denoted(tm)
    && your.year == YearOf(DayMeant(tm, norm)) - TM_YEAR_BASE
  }

  lemma CarriesKeepSeconds(sec: int, min: int, hour: int, days: int)
    ensures SECS_PER_DAY * (days + (hour + min / 60) / 24) + 3600 * ((hour + min / 60) % 24) + 60 * (min % 60) + sec
         == SECS_PER_DAY * days + 3600 * hour + 60 * min + sec
  {
  }

  lemma DayNumberShift(y: int, m: int, d: int, k: int)
    requires 0 <= m < 12
    ensures DayNumber(y, m, d + k) == DayNumber(y, m, d) + k
  {
  }

  /** The first half of time2sub. */
  method Normalize(tm: Tm, norm: bool) returns (r: Option<Tm>)
    requires FieldsAreInts(tm)
    ensures r.Some? <==> CarriesFit(tm, norm)
    ensures r.Some? ==> IsNormal(tm, norm, r.value)
  {
    hide DayNumber, IncrementOverflow, NormalizeOverflow;
    var sec, min := tm.sec, tm.min;
    if norm {
      NormalizeOverflowExact(tm.min, tm.sec, 60);
      var n := NormalizeOverflow(tm.min, tm.sec, 60);
      if n.0 {
        return None;
      }
      min, sec := n.1, n.2;
    }
    NormalizeOverflowExact(tm.hour, min, 60);
    var h := NormalizeOverflow(tm.hour, min, 60);
    if h.0 {
      return None;
    }
    NormalizeOverflowExact(tm.mday, h.1, 24);
    var d := NormalizeOverflow(tm.mday, h.1, 24);
    if d.0 {
      return None;
    }
    var y := tm.year + tm.mon / 12 + TM_YEAR_BASE;
    var mon, mday;
    y, mon, mday := NormalizeDay(y, tm.mon % 12, d.1);
    if !InInt(y - TM_YEAR_BASE) {
      return None;
    }
    var your := Tm(sec, h.2, d.2, mday, mon, y - TM_YEAR_BASE, 0, 0);
    CarriesKeepSeconds(sec, min, tm.hour, DayNumber(tm.year + TM_YEAR_BASE + tm.mon / 12, tm.mon % 12, tm.mday));
    DayNumberShift(tm.year + TM_YEAR_BASE + tm.mon / 12, tm.mon % 12, tm.mday, h.1 / 24);
    r := Some(your);
  }

  // ----- time2sub

  /** The seconds that time2sub sets aside because they are not those of a clock, and the ones it keeps. */
  function SetAside(year: int, sec: int): (int, int) {
    if 0 <= sec < 60 then (0, sec)
    else if year + TM_YEAR_BASE < EPOCH_YEAR then (sec - 59, 59)
    else (sec, 0)
  }

  /** What time2sub returns for fields `tm`: the second they denote, provided that the carries fit, that
      this second and the one the search looks for can be represented, and that the year is within reach
      of the search. */
  ghost function TimeOf(tm: Tm, off: int, norm: bool): Option<int> {
    var t := Denoted(tm) - off;
    var (aside, kept) := SetAside(YearOf(DayMeant(tm, norm)) - TM_YEAR_BASE, if norm then tm.sec % 60 else tm.sec);
    if && CarriesFit(tm, norm) && InInt(aside) && Reachable(YearOf(DayMeant(tm, norm)) - TM_YEAR_BASE, off)
       && InLong(t - aside) && LocalTime(t - aside, off).Some? && InLong(t) && LocalTime(t, off).Some?
    then Some(t) else None
  }

  function Wrap64(x: int): int {
    (x + 0x8000_0000_0000_0000) % 0x1_0000_0000_0000_0000 - 0x8000_0000_0000_0000
  }

  lemma Wrap64Exact(t: int, d: int)
    requires InLong(t) && InInt(d)
    ensures var s := Wrap64(t + d); if (s < t) != (d < 0) then !InLong(t + d) else s == t + d && InLong(t + d)
  {
  }

  lemma NormalYearFits(tm: Tm, norm: bool, your: Tm)
    requires CarriesFit(tm, norm) && IsNormal(tm, norm, your)
    ensures InInt(your.year)
  {
  }

  /** time2sub for fields whose tm_isdst asks for nothing special. */
  method Time2Sub(tm: Tm, off: int, norm: bool) returns (r: Option<int>)
    requires InInt(off) && FieldsAreInts(tm)
    ensures r == TimeOf(tm, off, norm)
  {
    hide Seconds, ValidFields, LocalTime, Denoted, DayMeant, Civil, CarriesFit, Reachable, Wrap64, IncrementOverflow, Stored;
    var your := Normalize(tm, norm);
    if your.Some? {
      NormalYearFits(tm, norm, your.value);
    }
    if your == None {
      return None;
    }
    var sec := your.value.sec;
    var aside;
    if 0 <= sec < 60 {
      aside := 0;
    } else if your.value.year + TM_YEAR_BASE < EPOCH_YEAR {
      var (over, s) := IncrementOverflow(sec, 1 - 60);
      IncrementOverflowExact(sec, 1 - 60);
      if over {
        return None;
      }
      aside, sec := s, 59;
    } else {
      aside, sec := sec, 0;
    }
    ghost var base := Denoted(tm) - off - aside;
    SecondsReplaced(your.value, sec);
    var t := Search(your.value.(sec := sec), off);
    if t == None {
      return None;
    }
    var newt := Wrap64(t.value + aside);
    Wrap64Exact(t.value, aside);
    if (newt < t.value) != (aside < 0) {
      return None;
    }
    var out := Timesub(newt, off);
    if out == None {
      return None;
    }
    r := Some(newt);
  }

  /** time2: first with the seconds as they are, then with the seconds normalised. */
  method Time2(tm: Tm, off: int) returns (r: Option<int>)
    requires InInt(off) && FieldsAreInts(tm)
    ensures r == if TimeOf(tm, off, false).Some? then TimeOf(tm, off, false) else TimeOf(tm, off, true)
    ensures r.Some? ==> r.value == Denoted(tm) - off
    ensures InLong(Denoted(tm) - off) && LocalTime(Denoted(tm) - off, off) == Some(tm) ==>
              (r.Some? <==> Reachable(tm.year, off))
  {
    hide LocalTime, Denoted, CarriesFit, Reachable;
    r := Time2Sub(tm, off, false);
    if r == None {
      r := Time2Sub(tm, off, true);
    }
    if InLong(Denoted(tm) - off) && LocalTime(Denoted(tm) - off, off) == Some(tm) {
      RoundTrip(Denoted(tm) - off, off, false);
      RoundTrip(Denoted(tm) - off, off, true);
    }
  }

  lemma SecondsReplaced(your: Tm, sec: int)
    requires ValidFields(your.(sec := 0)) && 0 <= sec < 60
    ensures ValidFields(your.(sec := sec)) && Seconds(your.(sec := sec)) == Seconds(your) - your.sec + sec
  {
  }

  // ----- The two directions together

  /** Fields of a clock and a calendar denote the second they name, and no carry changes them. */
  lemma ValidFieldsDenote(tm: Tm, norm: bool)
    requires ValidFields(tm)
    ensures Denoted(tm) == Seconds(tm) && YearOf(DayMeant(tm, norm)) == tm.year + TM_YEAR_BASE
    ensures Minutes(tm, norm) == tm.min && Hours(tm, norm) == tm.hour && Days(tm, norm) == tm.mday
  {
    hide DaysBefore, MonthStart, IsLeap;
    assert tm.mon / 12 == 0 && tm.mon % 12 == tm.mon;
    assert tm.sec / 60 == 0 && tm.min / 60 == 0 && tm.hour / 24 == 0;
    DateInYear(tm.year + TM_YEAR_BASE, tm.mon, tm.mday);
    YearIsUnique(DayMeant(tm, norm), tm.year + TM_YEAR_BASE, YearOf(DayMeant(tm, norm)));
  }

  /** Fields to seconds inverts seconds to fields: whatever second has fields, time2sub gets it back
      from them, with or without normalising the seconds, if and only if the year is within reach. */
  lemma RoundTrip(t: int, off: int, norm: bool)
    requires InInt(off) && InLong(t) && LocalTime(t, off).Some?
    ensures var tm := LocalTime(t, off).value;
            && FieldsAreInts(tm)
            && TimeOf(tm, off, norm) == if Reachable(tm.year, off) then Some(t) else None
  {
    hide Civil, Seconds, Denoted, DayMeant, Minutes, Hours, Days, IsLeap, Reachable;
    var tm := LocalTime(t, off).value;
    CivilNamesItsSecond(t + off);
    ValidFieldsDenote(tm, norm);
  }

  /** On the clock of Greenwich the years within reach are all but the lowest seventy. */
  lemma ReachableAtZero(year: int)
    requires InInt(year)
    ensures Reachable(year, 0) <==> year >= -0x8000_0000 + 70
  {
    hide Civil, DaysBefore;
    CivilYearOf(-1);
    DaysAtTheEpoch();
    YearIsUnique(-1, 1969, YearOf(-1));
  }

  lemma DaysAtTheEpoch()
    ensures DaysBefore(1969) == -365 && DaysBefore(1970) == 0
  {
    LeapsThruRoundsDown(1968);
    LeapsThruRoundsDown(1969);
  }

  const LOWEST_YEAR: int := -0x8000_0000 + TM_YEAR_BASE

  lemma DaysAtTheLowestYear()
    ensures -1_000_000_000_000 < DaysBefore(LOWEST_YEAR) < 0 && YearOf(DaysBefore(LOWEST_YEAR)) == LOWEST_YEAR
  {
    LeapsThruRoundsDown(LOWEST_YEAR - 1);
    LeapsThruRoundsDown(1969);
    YearStep(LOWEST_YEAR);
    YearIsUnique(DaysBefore(LOWEST_YEAR), LOWEST_YEAR, YearOf(DaysBefore(LOWEST_YEAR)));
  }

  lemma LowestSecond()
    ensures var tm := Tm(0, 0, 0, 1, 0, -0x8000_0000, 0, 0);
            ValidFields(tm) && Seconds(tm) == 86400 * DaysBefore(LOWEST_YEAR)
  {
    hide DaysBefore, IsLeap;
    assert MonthStart(IsLeap(LOWEST_YEAR), 0) == 0;
  }

  /** The first day of the lowest year: a second that has fields, which time2sub does not find from them,
      and whose weekday comes out wrong. */
  lemma LowestYearIsLost(norm: bool)
    ensures var tm := Tm(0, 0, 0, 1, 0, -0x8000_0000, 0, 0);
            var t := Seconds(tm);
            && InLong(t) && LocalTime(t, 0).Some? && SameFields(LocalTime(t, 0).value, tm)
            && TimeOf(LocalTime(t, 0).value, 0, norm) == None
            && Stored(LocalTime(t, 0).value).wday != LocalTime(t, 0).value.wday
  {
    hide Civil, DaysBefore, Reachable, TimeOf, Seconds, ValidFields;
    var tm := Tm(0, 0, 0, 1, 0, -0x8000_0000, 0, 0);
    var t := Seconds(tm);
    DaysAtTheLowestYear();
    LowestSecond();
    ExactDays(DaysBefore(LOWEST_YEAR));
    CivilNamesItsSecond(t);
    CivilIsUnique(Civil(t), tm);
    RoundTrip(t, 0, norm);
    ReachableAtZero(-0x8000_0000);
    CivilWeekday(t);
  }

  lemma ExactDays(d: int)
    ensures CDiv(86400 * d, SECS_PER_DAY) == d
  {
  }

  lemma CivilWeekday(s: int)
    ensures 0 <= Civil(s).wday < 7
  {
  }

  /** And the other way round: what time2sub returns has fields that denote the same second. */
  lemma RoundTripBack(tm: Tm, off: int, norm: bool)
    requires InInt(off) && FieldsAreInts(tm) && TimeOf(tm, off, norm).Some?
    ensures var t := TimeOf(tm, off, norm).value;
            LocalTime(t, off).Some? && Denoted(LocalTime(t, off).value) == Denoted(tm) == t + off
  {
    hide Civil, Seconds, Denoted, DayMeant, CarriesFit;
    var t := TimeOf(tm, off, norm).value;
    CivilNamesItsSecond(t + off);
    ValidFieldsDenote(LocalTime(t, off).value, norm);
  }

  /** Two seconds with the same fields are the same second. */
  lemma LocalTimeInjective(s: int, t: int, off: int)
    requires LocalTime(s, off).Some? && LocalTime(t, off).Some?
    requires SameFields(LocalTime(s, off).value, LocalTime(t, off).value)
    ensures s == t
  {
    hide Civil, Seconds, ValidFields;
    CivilNamesItsSecond(s + off);
    CivilNamesItsSecond(t + off);
    SameSeconds(LocalTime(s, off).value, LocalTime(t, off).value);
  }
}
