/**
  Week dates (section 4.1.4 of ISO 8601:2004) as src/include/date/date.hpp computes them for the
  format flags %G and %V, and resolves them when all of %G, %V and a weekday were read.

  A week belongs to the year its Thursday lies in. The code looks three days ahead and then steps
  one year back when the day comes before the first week of that year.
 */
module WeekDates {
  import opened Basics
  import opened Calendar
  import opened Weekdays

  const MONDAY := 1
  const THURSDAY := 4

  // ----- what a week date means -----

  function ThursdayOfWeek(z: int): int {
    z - (DayOfWeek(z) - MONDAY) % 7 + 3
  }

  function WeekYear(z: int): int {
    CivilFromDays(ThursdayOfWeek(z)).year
  }

  function NewYear(y: int): int {
    FirstOfMonth(y, 1)
  }

  /** The position of the week's Thursday among the Thursdays of the year. */
  function Week(z: int): int {
    (ThursdayOfWeek(z) - NewYear(WeekYear(z))) / 7 + 1
  }

  // ----- what the code computes -----

  lemma DecemberInInt(y: int)
    requires -32768 <= y <= 32767
    ensures InInt(LastOfMonth(y, 12))
  {
    if y == -32768 {
      assert ToDays(Date(-32768, 12, 31)) == MIN_DAY - 1;
    } else {
      hide ToDays;
      MonthSpan(y, 12);
    }
  }

  /** The first day of week 1, from the last Thursday of the December before. Years are stored in 16 bits. */
  function FirstWeek(y: int): int {
    var before := Year(y - 1);
    DecemberInInt(before);
    LastWeekdayToDays(before, 12, THURSDAY) + WeekdayMinus(MONDAY, THURSDAY)
  }

  lemma YearSpan(z: int, y: int)
    ensures CivilFromDays(z).year == y <==> NewYear(y) <= z < NewYear(y + 1)
  {
    hide ToDays, CivilFromDays, IsLeap;
    CivilRoundTrip(z);
    var d := CivilFromDays(z);
    assert LastDay(y, 1) == 31 && LastDay(y + 1, 1) == 31;
    OrderIsDayOrder(d, Date(y, 1, 1));
    OrderIsDayOrder(d, Date(y + 1, 1, 1));
  }

  lemma NewYearStep(y: int)
    ensures NewYear(y) == LastOfMonth(y - 1, 12) + 1
    ensures 365 <= NewYear(y + 1) - NewYear(y) <= 366
  {
    hide ToDays, LeapDays, IsLeap;
    ToDaysCountsDays(Date(y - 1, 12, 31));
    NewYearIs(y);
    NewYearIs(y + 1);
    LeapDaysStep(y);
  }

  lemma NewYearIs(y: int)
    ensures NewYear(y) == 365 * (y - 1) + LeapDays(y - 1) + 306 - 719468
  {
    hide ToDays, LeapDays;
    ToDaysIs(Date(y, 1, 1));
  }

  /** Week 1 begins on the Monday whose Thursday is the first one of the year. */
  lemma FirstWeekMeaning(y: int)
    requires -32767 <= y <= 32768
    ensures DayOfWeek(FirstWeek(y)) == MONDAY
    ensures NewYear(y) <= FirstWeek(y) + 3 < NewYear(y) + 7
  {
    hide ToDays, LastDay, LastWeekdayToDays;
    DecemberInInt(y - 1);
    NewYearStep(y - 1 + 1);
    LastWeekdayMeaning(y - 1, 12, THURSDAY);
    WeekdayArithmetic(MONDAY, THURSDAY);
    var thursday := LastWeekdayToDays(y - 1, 12, THURSDAY);
    assert DayOfWeek(thursday + 4) == MONDAY;
  }

  lemma ThursdayFacts(z: int)
    ensures DayOfWeek(ThursdayOfWeek(z)) == THURSDAY && ThursdayOfWeek(z) - 3 <= z <= ThursdayOfWeek(z) + 3
    ensures (z - (ThursdayOfWeek(z) - 3)) == (DayOfWeek(z) - MONDAY) % 7
  {}

  /** A day comes in or after the week that starts on `start` exactly when its Thursday does. */
  lemma WeekOrder(z: int, start: int)
    requires DayOfWeek(start) == MONDAY
    ensures z >= start <==> ThursdayOfWeek(z) >= start + 3
    ensures z >= start ==> (z - start) / 7 == (ThursdayOfWeek(z) - start - 3) / 7
    ensures (ThursdayOfWeek(z) - start - 3) % 7 == 0
  {
    var w := (DayOfWeek(z) - MONDAY) % 7;
    var q := (start + 4) / 7;
    assert start == 7 * q + MONDAY - 4;
    var p := (z + 4) / 7;
    assert z == 7 * p + DayOfWeek(z) - 4;
  }

  // ----- the year and the number of the week -----

  /** Three days ahead of a day, the year is the week's year, or the next one when week 1 is still to come. */
  lemma LookAhead(z: int, y: int)
    requires CivilFromDays(z + 3).year == y && -32767 <= y <= 32768
    ensures z >= FirstWeek(y) ==> WeekYear(z) == y && Week(z) == (z - FirstWeek(y)) / 7 + 1
    ensures z < FirstWeek(y) ==> WeekYear(z) == y - 1
  {
    hide CivilFromDays, NewYear, FirstWeek, ThursdayOfWeek, DayOfWeek;
    YearSpan(z + 3, y);
    FirstWeekMeaning(y);
    ThursdayFacts(z);
    WeekOrder(z, FirstWeek(y));
    NewYearStep(y - 1);
    YearSpan(ThursdayOfWeek(z), if z >= FirstWeek(y) then y else y - 1);
  }

  lemma WeekInYear(z: int, y: int)
    requires WeekYear(z) == y && -32767 <= y <= 32767
    ensures z >= FirstWeek(y) && Week(z) == (z - FirstWeek(y)) / 7 + 1 && 1 <= Week(z) <= 53
  {
    hide CivilFromDays, NewYear, FirstWeek, ThursdayOfWeek, DayOfWeek;
    YearSpan(ThursdayOfWeek(z), y);
    FirstWeekMeaning(y);
    WeekOrder(z, FirstWeek(y));
    NewYearStep(y);
  }

  /** The first and the last week of the range: 32767 ends on a Sunday, and -32767 begins on a Saturday. */
  lemma Edges()
    ensures FirstWeek(-32767) == MIN_DAY + 2
    ensures FirstWeek(-32768) == MAX_DAY + 1
  {
    hide ToDays, FirstWeek;
    Limits();
    NewYearStep(32768);
    FirstWeekMeaning(-32767);
    FirstWeekMeaning(32768);
    SameYearStored();
  }

  lemma SameYearStored()
    ensures FirstWeek(-32768) == FirstWeek(32768)
  {
    hide LastOfMonth;
    assert Year(-32768 - 1) == Year(32768 - 1);
  }

  /** %G: the year of the week of a valid day. */
  method FormatWeekYear(d: Date) returns (y: int)
    requires DateOk(d)
    ensures y == WeekYear(ToDays(d))
  {
    hide ToDays, WeekYear, FirstWeek, LastDay;
    OkIsInRange(d);
    var ld := ToDays(d);
    y := FromDays(ld + 3).year;
    Edges();
    CodeLookAhead(ld);
    if ld < FirstWeek(y) {
      y := Year(y - 1);
    }
  }

  /** %V: the number of the week, right for every valid day but the first two, where the year wraps around. */
  method FormatWeek(d: Date) returns (wn: int)
    requires DateOk(d)
    ensures ToDays(d) >= MIN_DAY + 2 ==> wn == Week(ToDays(d)) && 1 <= wn <= 53
    ensures ToDays(d) < MIN_DAY + 2 ==> wn < 0
  {
    hide ToDays, WeekYear, Week, FirstWeek, LastDay;
    OkIsInRange(d);
    var ld := ToDays(d);
    var y := FromDays(ld + 3).year;
    Edges();
    CodeLookAhead(ld);
    var st := FirstWeek(y);
    if ld < st {
      y := Year(y - 1);
      st := FirstWeek(y);
    }
    if ld >= MIN_DAY + 2 {
      WeekInYear(ld, y);
    }
    wn := TruncDiv(ld - st, 7) + 1;
  }

  /** What the first lines of both computations find, with the 16 bit year wrapping around at the upper end. */
  lemma CodeLookAhead(ld: int)
    requires MIN_DAY <= ld <= MAX_DAY
    ensures var y := FromDays(ld + 3).year;
      && WeekYear(ld) == (if ld < FirstWeek(y) then Year(y - 1) else y)
      && (-32767 <= WeekYear(ld) <= 32767 <==> ld >= MIN_DAY + 2)
      && WeekYear(ld) >= -32768
  {
    hide ToDays, WeekYear, FirstWeek, LastDay, CivilFromDays, NewYear;
    var y := CivilFromDays(ld + 3).year;
    CivilRoundTrip(ld + 3);
    OkIsInRange(CivilFromDays(ld + 3));
    EdgeYears();
    Edges();
    YearSpan(ld + 3, -32767);
    YearSpan(ld + 3, 32768);
    LookAhead(ld, y);
  }

  lemma EdgeYears()
    ensures NewYear(-32767) == MIN_DAY && NewYear(-32766) >= MIN_DAY + 365
    ensures NewYear(32768) == MAX_DAY + 1 && NewYear(32769) >= MAX_DAY + 366
  {
    hide ToDays;
    Limits();
    NewYearStep(-32767);
    NewYearStep(32768);
  }

  // ----- the calendar of weeks -----

  /** The fourth of January is in the first week of its year. */
  lemma JanuaryFourth(y: int)
    ensures WeekYear(NewYear(y) + 3) == y && Week(NewYear(y) + 3) == 1
  {
    hide CivilFromDays, NewYear, ThursdayOfWeek;
    ThursdayFacts(NewYear(y) + 3);
    NewYearStep(y);
    YearSpan(ThursdayOfWeek(NewYear(y) + 3), y);
  }

  /** A week ends with its Sunday; the next one has the next number, or it is the first of the next year. */
  lemma NextDayOfWeek(z: int)
    ensures (z + 4) % 7 != 0 ==> WeekYear(z + 1) == WeekYear(z) && Week(z + 1) == Week(z)
    ensures (z + 4) % 7 == 0 ==>
      || (WeekYear(z + 1) == WeekYear(z) && Week(z + 1) == Week(z) + 1)
      || (WeekYear(z + 1) == WeekYear(z) + 1 && Week(z + 1) == 1)
  {
    NextThursday(z);
    hide CivilFromDays, NewYear, ThursdayOfWeek;
    if (z + 4) % 7 == 0 {
      var y := WeekYear(z);
      NewYearStep(y);
      NewYearStep(y + 1);
      YearSpan(ThursdayOfWeek(z), y);
      YearSpan(ThursdayOfWeek(z) + 7, y);
      YearSpan(ThursdayOfWeek(z) + 7, y + 1);
    }
  }

  lemma NextThursday(z: int)
    ensures ThursdayOfWeek(z + 1) == ThursdayOfWeek(z) + if (z + 4) % 7 == 0 then 7 else 0
  {
    var w, d := (z + 4) / 7, (z + 4) % 7;
    assert z + 4 == 7 * w + d;
    assert (z + 5) % 7 == if d == 6 then 0 else d + 1;
  }

  // ----- reading a week date -----

  // The values that stand for a field that was not read.
  const NOT_A_YEAR := -32768
  const NOT_A_WEEK_NUM := 100
  const NOT_A_WEEKDAY := 8

  /** The day that %G, %V and a weekday stand for. */
  function WeekDay(g: int, v: int, weekday: int): int {
    FirstWeek(g) + 7 * (v - 1) + WeekdayMinus(weekday, MONDAY)
  }

  lemma DateInInt(d: Date)
    ensures DateOk(d) ==> InInt(ToDays(d))
  {
    hide ToDays;
    if DateOk(d) {
      OkIsInRange(d);
    }
  }

  /**
    Reading a date from %G, %V and a weekday and nothing else. When one of them counts as not read,
    or the date found is not valid, or it is another weekday, reading fails.
   */
  function ReadWeekDate(g: int, v: int, weekday: int): Option<Date> {
    if g == NOT_A_YEAR || v == NOT_A_WEEK_NUM || weekday == NOT_A_WEEKDAY then None
    else
      var trial := FromDays(WeekDay(g, v, weekday));
      DateInInt(trial);
      if DateOk(trial) && WeekdayFromDays(ToDays(trial)) == weekday then Some(trial) else None
  }

  /**
    Reading back what was written gives the day, for every valid day but the first two. Their week
    belongs to the year -32768, which counts as not read, so reading fails whatever week was written.
   */
  lemma WeekDateRoundTrip(d: Date)
    requires DateOk(d)
    ensures var z := ToDays(d);
      && (z >= MIN_DAY + 2 ==> ReadWeekDate(WeekYear(z), Week(z), DayOfWeek(z)) == Some(d))
      && (z < MIN_DAY + 2 ==> forall v :: ReadWeekDate(WeekYear(z), v, DayOfWeek(z)) == None)
  {
    hide ToDays, WeekYear, Week, WeekDay, FromDays, DayOfWeek, LastDay;
    var z := ToDays(d);
    OkIsInRange(d);
    CodeLookAhead(z);
    if z >= MIN_DAY + 2 {
      WeekDayOfDay(z);
      DateRoundTrip(d);
      WeekdayIsMod7(z);
      SmallDay(z);
      WeekInYear(z, WeekYear(z));
    } else {
      FirstWeekOfRange(z - MIN_DAY);
    }
  }

  lemma SmallDay(z: int)
    ensures 0 <= DayOfWeek(z) <= 6
  {}

  lemma WeekDayOfDay(z: int)
    requires YearOk(WeekYear(z))
    ensures WeekDay(WeekYear(z), Week(z), DayOfWeek(z)) == z
  {
    hide ToDays, WeekYear, Week, FirstWeek, LastDay, FromDays, DayOfWeek, ThursdayOfWeek;
    var y := WeekYear(z);
    WeekInYear(z, y);
    FirstWeekMeaning(y);
    WeekOrder(z, FirstWeek(y));
    ThursdayFacts(z);
    WeekdayArithmetic(DayOfWeek(z), MONDAY);
    DaysIntoWeek(z, FirstWeek(y));
  }

  /**
    What is read is that weekday of that week; in a year without a week 53 this week is taken for
    the first one of the next year.
   */
  lemma ReadWeekDateMeaning(g: int, v: int, weekday: int)
    requires YearOk(g) && 1 <= v <= 53 && 0 <= weekday <= 6 && ReadWeekDate(g, v, weekday).Some?
    ensures var z := ToDays(ReadWeekDate(g, v, weekday).value);
      && DayOfWeek(z) == weekday
      && ((WeekYear(z) == g && Week(z) == v) || (v == 53 && WeekYear(z) == g + 1 && Week(z) == 1))
  {
    hide ToDays, WeekYear, Week, WeekDay, FromDays, DayOfWeek, LastDay, FirstWeek;
    var z := WeekDay(g, v, weekday);
    WeekOfWeekDay(g, v, weekday);
    NearYear(z, g);
    DayRoundTrip(z);
  }

  lemma WeekOfWeekDay(g: int, v: int, weekday: int)
    requires YearOk(g) && 1 <= v <= 53 && 0 <= weekday <= 6
    ensures var z := WeekDay(g, v, weekday);
      && DayOfWeek(z) == weekday && NewYear(g) - 7 <= z < NewYear(g) + 380
      && ((WeekYear(z) == g && Week(z) == v) || (v == 53 && WeekYear(z) == g + 1 && Week(z) == 1))
  {
    hide CivilFromDays, NewYear, FirstWeek, ThursdayOfWeek;
    var z := WeekDay(g, v, weekday);
    FirstWeekMeaning(g);
    WeekdayArithmetic(weekday, MONDAY);
    DayOfMondaysWeek(FirstWeek(g), v - 1, weekday);
    NewYearStep(g);
    NewYearStep(g + 1);
    YearSpan(ThursdayOfWeek(z), g);
    YearSpan(ThursdayOfWeek(z), g + 1);
  }

  lemma DayOfMondaysWeek(start: int, weeks: int, weekday: int)
    requires DayOfWeek(start) == MONDAY && 0 <= weekday <= 6
    ensures var z := start + 7 * weeks + (weekday - MONDAY) % 7;
      DayOfWeek(z) == weekday && ThursdayOfWeek(z) == start + 7 * weeks + 3
  {
    var q := (start + 4) / 7;
    assert start + 4 == 7 * q + MONDAY;
    assert start + 7 * weeks + 4 == 7 * (q + weeks) + MONDAY;
  }

  /** A day near a valid year with a valid date: the 16 bit year did not wrap around. */
  lemma NearYear(z: int, g: int)
    requires YearOk(g) && NewYear(g) - 7 <= z < NewYear(g) + 380 && DateOk(FromDays(z))
    ensures MIN_DAY <= z <= MAX_DAY
  {
    hide ToDays, CivilFromDays, NewYear, LastDay;
    NewYearStep(g - 1);
    NewYearStep(g);
    NewYearStep(g + 1);
    YearSpan(z, g - 1);
    YearSpan(z, g);
    YearSpan(z, g + 1);
    CivilRoundTrip(z);
    OkIsInRange(CivilFromDays(z));
  }

  lemma DaysIntoWeek(z: int, start: int)
    requires DayOfWeek(start) == MONDAY && z >= start
    ensures start + 7 * ((z - start) / 7) + (DayOfWeek(z) - MONDAY) % 7 == z
  {
    var q := (start + 4) / 7;
    assert start == 7 * q + MONDAY - 4;
  }

  /** The first two days of the range are in week 53 of a year before the first valid one. */
  lemma FirstWeekOfRange(k: int)
    requires k == 0 || k == 1
    ensures WeekYear(MIN_DAY + k) == -32768 && Week(MIN_DAY + k) == 53
  {
    hide ToDays, CivilFromDays, NewYear;
    NewYearIs(-32768);
    NewYearIs(-32767);
    Limits();
    EdgeYears();
    YearSpan(MIN_DAY - 2, -32768);
  }
}
