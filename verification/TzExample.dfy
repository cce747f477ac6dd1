/** Dates that anyone can look up, as seconds. */
module TzExample {
  import opened Common
  import opened TzCalendar
  import opened TzTime
  import opened TzMktime

  /** What has to be shown of a date near the epoch. */
  lemma DateOf(t: int, day: int, tm: Tm)
    requires ValidFields(tm) && day == DayNumber(tm.year + 1900, tm.mon, tm.mday) && -25567 <= day < 25200
    requires t == 86400 * day + 3600 * tm.hour + 60 * tm.min + tm.sec
    requires tm.wday == (4 + day) % 7 && tm.yday == day - DayNumber(tm.year + 1900, 0, 1)
    ensures LocalTime(t, 0) == Some(tm)
  {
    hide DayNumber, ValidFields, Civil, YearOf, DaysBefore, CDiv, Seconds;
    CivilNamesItsSecond(t);
    CivilYearOf(t);
    DayOfSecond(t, day, tm);
    FirstOfYear(tm.year + 1900);
    SecondsOf(t, day, tm);
    CivilIsUnique(Civil(t), tm);
    NearEpoch(day);
    NearEpoch(CDiv(t, SECS_PER_DAY));
  }

  lemma SecondsOf(t: int, day: int, tm: Tm)
    requires ValidFields(tm) && day == DayNumber(tm.year + 1900, tm.mon, tm.mday)
    requires t == 86400 * day + 3600 * tm.hour + 60 * tm.min + tm.sec
    ensures Seconds(tm) == t
  {
    hide DayNumber, MonthLen, IsLeap;
  }

  lemma DayOfSecond(t: int, day: int, tm: Tm)
    requires ValidFields(tm) && t == 86400 * day + 3600 * tm.hour + 60 * tm.min + tm.sec
    ensures t / SECS_PER_DAY == day && day <= CDiv(t, SECS_PER_DAY) <= day + 1
  {
    hide MonthLen, IsLeap;
    var rest := 3600 * tm.hour + 60 * tm.min + tm.sec;
    assert 0 <= rest < 86400;
  }

  lemma FirstOfYear(year: int)
    ensures DayNumber(year, 0, 1) == DaysBefore(year)
  {
    hide DaysBefore;
  }

  /** The last second before the epoch. */
  lemma EndOf1969()
    ensures LocalTime(-1, 0) == Some(Tm(59, 59, 23, 31, 11, 69, 3, 364))
  {
    DayNumberIs(1969, 11, 31);
    assert DayNumber(1969, 11, 31) == -1;
    DayNumberIs(1969, 0, 1);
    assert DayNumber(1969, 0, 1) == -365;
    hide DayNumber, LocalTime, LeapsThru, MonthStart;
    DateOf(-1, -1, Tm(59, 59, 23, 31, 11, 69, 3, 364));
  }

  /** 1 March 1900: that year was no leap year. */
  lemma FirstOfMarch1900()
    ensures LocalTime(-2203891200, 0) == Some(Tm(0, 0, 0, 1, 2, 0, 4, 59))
  {
    DayNumberIs(1900, 2, 1);
    assert DayNumber(1900, 2, 1) == -25508;
    DayNumberIs(1900, 0, 1);
    assert DayNumber(1900, 0, 1) == -25567;
    hide DayNumber, LocalTime, LeapsThru, MonthStart;
    DateOf(-2203891200, -25508, Tm(0, 0, 0, 1, 2, 0, 4, 59));
  }

  lemma LastOfMarch1970()
    ensures LocalTime(7689600, 0) == Some(Tm(0, 0, 0, 31, 2, 70, 2, 89))
  {
    DayNumberIs(1970, 2, 31);
    assert DayNumber(1970, 2, 31) == 89;
    DayNumberIs(1970, 0, 1);
    assert DayNumber(1970, 0, 1) == 0;
    hide DayNumber, LocalTime, LeapsThru, MonthStart;
    DateOf(7689600, 89, Tm(0, 0, 0, 31, 2, 70, 2, 89));
  }

  /** 29 February 2000: that year was one. */
  lemma LeapDay2000()
    ensures LocalTime(951782400, 0) == Some(Tm(0, 0, 0, 29, 1, 100, 2, 59))
  {
    DayNumberIs(2000, 1, 29);
    assert DayNumber(2000, 1, 29) == 11016;
    DayNumberIs(2000, 0, 1);
    assert DayNumber(2000, 0, 1) == 10957;
    hide DayNumber, LocalTime, LeapsThru, MonthStart;
    DateOf(951782400, 11016, Tm(0, 0, 0, 29, 1, 100, 2, 59));
  }

  /** The last second that 32 bits can count. */
  lemma EndOf32Bits()
    ensures LocalTime(0x7fff_ffff, 0) == Some(Tm(7, 14, 3, 19, 0, 138, 2, 18))
  {
    DayNumberIs(2038, 0, 19);
    assert DayNumber(2038, 0, 19) == 24855;
    DayNumberIs(2038, 0, 1);
    assert DayNumber(2038, 0, 1) == 24837;
    hide DayNumber, LocalTime, LeapsThru, MonthStart;
    DateOf(0x7fff_ffff, 24855, Tm(7, 14, 3, 19, 0, 138, 2, 18));
  }
}
