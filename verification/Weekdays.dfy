/** Weekdays and dates given by a weekday of a month, of src/include/date/date.hpp. */
module Weekdays {
  import opened Basics
  import opened Calendar

  predicate InInt(z: int) {
    -0x8000_0000 <= z < 0x8000_0000
  }

  /** The weekday of a day number, through 32 bit unsigned arithmetic. Sunday is 0. */
  function WeekdayFromDays(z: int): int
    requires InInt(z)
  {
    var u := if z >= 0 then z else z + 0x1_0000_0000;
    if z >= -4 then (u + 4) % 0x1_0000_0000 % 7 else u % 7
  }

  /** The day of the week of a day number: 1970-01-01 was a Thursday. */
  function DayOfWeek(z: int): int {
    (z + 4) % 7
  }

  function WeekdayMinus(x: int, y: int): int {
    var wdu := x - y;
    var wk := TruncDiv(if wdu >= 0 then wdu else wdu - 6, 7);
    wdu - wk * 7
  }

  function WeekdayPlus(x: int, days: int): int {
    var wdu := x + days;
    var wk := TruncDiv(if wdu >= 0 then wdu else wdu - 6, 7);
    wdu - wk * 7
  }

  /** The unsigned wrap of negative day numbers does not disturb the week. */
  lemma WeekdayIsMod7(z: int)
    requires InInt(z)
    ensures WeekdayFromDays(z) == (z + 4) % 7 == DayOfWeek(z)
  {
    var q, d := (z + 4) / 7, (z + 4) % 7;
    assert z + 4 == 7 * q + d;
    if z < -4 {
      assert z + 0x1_0000_0000 == 7 * (q + 613566756) + d;
    }
  }

  /** The first day was a Thursday, and the year 2000 began on a Saturday. */
  lemma KnownWeekdays()
    ensures DayOfWeek(ToDays(Date(1970, 1, 1))) == 4 && DayOfWeek(ToDays(Date(2000, 1, 1))) == 6
  {
    assert ToDays(Date(2000, 1, 1)) == 10957;
    Epoch();
    hide ToDays;
  }

  /** Differences and sums of weekdays are taken modulo 7, with no negative result. */
  lemma WeekdayArithmetic(x: int, y: int)
    ensures WeekdayMinus(x, y) == (x - y) % 7 && WeekdayPlus(x, y) == (x + y) % 7
  {}

  /** Going forward by the difference of two weekdays leads from the one to the other. */
  lemma WeekdayPlusMinus(x: int, y: int, days: int)
    requires 0 <= x <= 6 && 0 <= y <= 6
    ensures WeekdayPlus(y, WeekdayMinus(x, y)) == x
    ensures 0 <= days <= 6 && WeekdayPlus(y, days) == x ==> days == WeekdayMinus(x, y)
  {
    WeekdayArithmetic(x, y);
    WeekdayArithmetic(y, WeekdayMinus(x, y));
    WeekdayArithmetic(y, days);
    hide WeekdayMinus, WeekdayPlus;
    SmallMod7(x - y);
    SmallMod7(y + WeekdayMinus(x, y));
    SmallMod7(y + days);
  }

  lemma SmallMod7(z: int)
    ensures -7 <= z < 14 ==> z % 7 == if z < 0 then z + 7 else if z < 7 then z else z - 7
  {}

  // ----- the n-th weekday of a month -----

  datatype MonthWeekday = MonthWeekday(year: int, month: int, weekday: nat, index: nat)

  function MonthWeekdayFromDays(days: int): MonthWeekday
    requires InInt(days)
  {
    var date := FromDays(days);
    MonthWeekday(date.year, date.month, WeekdayFromDays(days), (date.day - 1) / 7 + 1)
  }

  function FirstOfMonth(y: int, m: int): int {
    ToDays(Date(y, m, 1))
  }

  function LastOfMonth(y: int, m: int): int {
    ToDays(Date(y, m, LastDay(y, m)))
  }

  function MonthWeekdayToDays(x: MonthWeekday): int
    requires InInt(FirstOfMonth(x.year, x.month))
  {
    var d := FirstOfMonth(x.year, x.month);
    d + WeekdayMinus(x.weekday, WeekdayFromDays(d)) + (x.index - 1) * 7
  }

  predicate MonthWeekdayOk(x: MonthWeekday)
    requires InInt(FirstOfMonth(x.year, x.month))
  {
    if !YearOk(x.year) || !(1 <= x.month <= 12) || !(x.weekday <= 6) || x.index < 1 then false
    else if x.index <= 4 then true
    else
      WeekdayMinus(x.weekday, WeekdayFromDays(FirstOfMonth(x.year, x.month))) + ((x.index - 1) * 7 + 1) <= LastDay(x.year, x.month)
  }

  lemma MonthSpan(y: int, m: int)
    requires 1 <= m <= 12
    ensures 28 <= LastDay(y, m) <= 31
    ensures LastOfMonth(y, m) == FirstOfMonth(y, m) + LastDay(y, m) - 1
    ensures YearOk(y) ==> MIN_DAY <= FirstOfMonth(y, m) && LastOfMonth(y, m) <= MAX_DAY
  {
    assert 28 <= LastDay(y, m) <= 31 by { hide IsLeap; }
    DayInMonth(y, m, LastDay(y, m));
    hide ToDays, LastDay;
    if YearOk(y) {
      OkIsInRange(Date(y, m, 1));
      OkIsInRange(Date(y, m, LastDay(y, m)));
    }
  }

  lemma DayInMonth(y: int, m: int, d: int)
    ensures ToDays(Date(y, m, d)) == FirstOfMonth(y, m) + d - 1
  {}

  /** A day number written as a weekday of its month leads back to the day number. */
  lemma MonthWeekdayRoundTrip(days: int)
    requires MIN_DAY <= days <= MAX_DAY
    ensures var x := MonthWeekdayFromDays(days);
      InInt(FirstOfMonth(x.year, x.month)) && MonthWeekdayOk(x) && MonthWeekdayToDays(x) == days
  {
    hide FromDays, ToDays, LastDay, WeekdayFromDays, WeekdayMinus;
    DayRoundTrip(days);
    var date := FromDays(days);
    MonthSpan(date.year, date.month);
    DayInMonth(date.year, date.month, date.day);
    var first := FirstOfMonth(date.year, date.month);
    WeekdayIsMod7(days);
    WeekdayIsMod7(first);
    WeekdayArithmetic(WeekdayFromDays(days), WeekdayFromDays(first));
    SameWeek(first, days);
  }

  lemma SameWeek(first: int, days: int)
    requires first <= days
    ensures ((days + 4) % 7 - (first + 4) % 7) % 7 + (days - first) / 7 * 7 == days - first
  {
    var p, v := (first + 4) / 7, (first + 4) % 7;
    var q, w := (days + 4) / 7, (days + 4) % 7;
    assert days - first == 7 * (q - p) + (w - v);
    SmallMod7(w - v);
    if w >= v {
      assert (days - first) / 7 == q - p;
    } else {
      assert (days - first) / 7 == q - p - 1;
    }
  }

  /**
    The date of a weekday and an index is that weekday, and it lies in that week of the month;
    `ok` holds exactly when it still lies in the month.
   */
  lemma MonthWeekdayMeaning(x: MonthWeekday)
    requires YearOk(x.year) && 1 <= x.month <= 12 && x.weekday <= 6 && 1 <= x.index
    ensures InInt(FirstOfMonth(x.year, x.month))
    ensures var z := MonthWeekdayToDays(x); var first := FirstOfMonth(x.year, x.month);
      && DayOfWeek(z) == x.weekday
      && first + 7 * (x.index - 1) <= z < first + 7 * x.index
      && (MonthWeekdayOk(x) <==> z <= LastOfMonth(x.year, x.month))
  {
    hide ToDays, LastDay, WeekdayFromDays, WeekdayMinus;
    MonthSpan(x.year, x.month);
    var first := FirstOfMonth(x.year, x.month);
    WeekdayIsMod7(first);
    WeekdayArithmetic(x.weekday, WeekdayFromDays(first));
    Advance(first, x.weekday, x.index - 1);
  }

  lemma Advance(first: int, weekday: int, weeks: int)
    requires 0 <= weekday <= 6
    ensures (first + (weekday - (first + 4) % 7) % 7 + weeks * 7 + 4) % 7 == weekday
  {}

  // ----- the last weekday of a month -----

  function LastWeekdayToDays(y: int, m: int, weekday: int): int
    requires InInt(LastOfMonth(y, m))
  {
    var d := LastOfMonth(y, m);
    d - WeekdayMinus(WeekdayFromDays(d), weekday)
  }

  /** It is that weekday, it lies in the month, and no later day of the month is that weekday. */
  lemma LastWeekdayMeaning(y: int, m: int, weekday: int)
    requires 1 <= m <= 12 && 0 <= weekday <= 6 && InInt(LastOfMonth(y, m))
    ensures var z := LastWeekdayToDays(y, m, weekday);
      && DayOfWeek(z) == weekday
      && FirstOfMonth(y, m) <= z && LastOfMonth(y, m) - 7 < z <= LastOfMonth(y, m)
      && forall later :: z < later <= LastOfMonth(y, m) ==> DayOfWeek(later) != weekday
  {
    hide ToDays, LastDay, WeekdayFromDays, WeekdayMinus;
    MonthSpan(y, m);
    var last := LastOfMonth(y, m);
    WeekdayIsMod7(last);
    WeekdayArithmetic(WeekdayFromDays(last), weekday);
    GoBack(last, weekday);
  }

  lemma GoBack(last: int, weekday: int)
    requires 0 <= weekday <= 6
    ensures var z := last - (DayOfWeek(last) - weekday) % 7;
      DayOfWeek(z) == weekday && forall later :: z < later <= last ==> DayOfWeek(later) != weekday
  {
    var back := (DayOfWeek(last) - weekday) % 7;
    var week, w := (last + 4) / 7, DayOfWeek(last);
    assert last + 4 == 7 * week + w;
    assert w - back == weekday || w - back == weekday - 7;
    forall later | last - back < later <= last
      ensures DayOfWeek(later) != weekday
    {
      NotAgain(week, w, weekday, later);
    }
  }

  lemma NotAgain(week: int, w: int, weekday: int, later: int)
    requires 0 <= w <= 6 && 0 <= weekday <= 6
    requires (if weekday <= w then weekday else weekday - 7) < later + 4 - 7 * week <= w
    ensures DayOfWeek(later) != weekday
  {}

  // ----- adding months -----

  function AddMonths(y: int, m: int, months: int): (int, int) {
    var dmi := m - 1 + months;
    var dy := TruncDiv(if dmi >= 0 then dmi else dmi - 11, 12);
    (Year(y + dy), dmi - dy * 12 + 1)
  }

  /** Months are added as if they were counted from year 0, up to the wrap of the year. */
  lemma AddMonthsMeaning(y: int, m: int, months: int)
    requires 1 <= m <= 12
    ensures var (y', m') := AddMonths(y, m, months); var count := 12 * y + (m - 1) + months;
      y' == Year(count / 12) && m' - 1 == count % 12
  {
    var dmi := m - 1 + months;
    FloorDivIsFloor(dmi, 12);
    assert (12 * y + dmi) / 12 == y + dmi / 12;
  }

  lemma YearWrapUndone(y: int, dy: int)
    requires -32768 <= y <= 32767
    ensures Year(Year(y + dy) - dy) == y
  {}

  /** Subtracting the months again gives the month back, even when the year wrapped around. */
  lemma AddMonthsUndone(y: int, m: int, months: int)
    requires -32768 <= y <= 32767 && 1 <= m <= 12
    ensures var (y', m') := AddMonths(y, m, months);
      1 <= m' <= 12 && AddMonths(y', m', -months) == (y, m)
  {
    var dmi := m - 1 + months;
    FloorDivIsFloor(dmi, 12);
    var dy := dmi / 12;
    var m' := dmi - 12 * dy + 1;
    FloorDivIsFloor(m' - 1 - months, 12);
    assert m' - 1 - months == m - 1 - 12 * dy;
    YearWrapUndone(y, dy);
  }
}
