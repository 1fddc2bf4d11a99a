/**
  Civil dates and day numbers of src/include/date/date.hpp: the closed formulas against counting
  days one by one in the proleptic Gregorian calendar.
 */
module Calendar {
  import opened Basics

  /** A date; the fields need not form a valid date. A year is stored in a signed 16 bit integer. */
  datatype Date = Date(year: int, month: int, day: int)

  predicate IsLeap(y: int) {
    y % 4 == 0 && (y % 100 != 0 || y % 400 == 0)
  }

  /** year{y}: the conversion to a signed 16 bit integer. */
  function Year(y: int): int {
    (y + 32768) % 65536 - 32768
  }

  predicate YearOk(y: int) {
    -32767 <= y <= 32767
  }

  const MONTH_LENGTHS: seq<int> := [31, 28, 31, 30, 31, 30, 31, 31, 30, 31, 30, 31]

  function LastDay(y: int, m: int): int {
    if 1 <= m <= 12 && (m != 2 || !IsLeap(y)) then MONTH_LENGTHS[m - 1] else 29
  }

  /** A date of the calendar, of any year. */
  predicate Proper(d: Date) {
    1 <= d.month <= 12 && 1 <= d.day <= LastDay(d.year, d.month)
  }

  predicate DateOk(d: Date) {
    YearOk(d.year) && Proper(d)
  }

  predicate Less(a: Date, b: Date) {
    if a.year < b.year then true else if a.year > b.year then false
    else if a.month < b.month then true else if a.month > b.month then false
    else a.day < b.day
  }

  function FloorDiv(a: int, b: int): int
    requires b > 0
  {
    TruncDiv(if a >= 0 then a else a - (b - 1), b)
  }

  function DayOfMarchYear(m: int, d: int): int {
    (153 * (if m > 2 then m - 3 else m + 9) + 2) / 5 + d - 1
  }

  function ToDays(date: Date): int {
    var y := date.year - (if date.month <= 2 then 1 else 0);
    var era := FloorDiv(y, 400);
    var yoe := y - era * 400;
    var doy := DayOfMarchYear(date.month, date.day);
    var doe := yoe * 365 + yoe / 4 - yoe / 100 + doy;
    era * 146097 + doe - 719468
  }

  /** The date of a day number, before the year is stored in 16 bits. */
  function CivilFromDays(days: int): Date {
    var z := days + 719468;
    var era := FloorDiv(z, 146097);
    var doe := z - era * 146097;
    var yoe := (doe - doe / 1460 + doe / 36524 - doe / 146096) / 365;
    var y := yoe + era * 400;
    var doy := doe - (365 * yoe + yoe / 4 - yoe / 100);
    DateOfMarchYear(y, doy)
  }

  /** The date of a day of the year that starts in March of year `y`. */
  function DateOfMarchYear(y: int, doy: int): Date {
    var mp := (5 * doy + 2) / 153;
    var d := doy - (153 * mp + 2) / 5 + 1;
    var m := if mp < 10 then mp + 3 else mp - 9;
    Date(y + (if m <= 2 then 1 else 0), m, d)
  }

  function FromDays(days: int): Date {
    var civil := CivilFromDays(days);
    civil.(year := Year(civil.year))
  }

  /** The next day, from the length of the month and nothing else. */
  function NextDay(d: Date): Date {
    if d.day < LastDay(d.year, d.month) then Date(d.year, d.month, d.day + 1)
    else if d.month < 12 then Date(d.year, d.month + 1, 1)
    else Date(d.year + 1, 1, 1)
  }

  /** Truncating division, corrected for negative numbers, rounds down. */
  lemma FloorDivIsFloor(a: int, b: int)
    requires b == 7 || b == 12 || b == 400 || b == 146097
    ensures FloorDiv(a, b) == a / b
  {}

  function LeapDays(y: int): int {
    y / 4 - y / 100 + y / 400
  }

  /** The closed form without eras: leap days counted with rounding down. */
  lemma ToDaysFormula(date: Date)
    ensures var y := date.year - (if date.month <= 2 then 1 else 0);
      ToDays(date) == 365 * y + LeapDays(y) + DayOfMarchYear(date.month, date.day) - 719468
  {
    var y := date.year - (if date.month <= 2 then 1 else 0);
    FloorDivIsFloor(y, 400);
    var era, yoe := y / 400, y % 400;
    assert y == 400 * era + yoe;
    assert y / 4 == 100 * era + yoe / 4;
    assert y / 100 == 4 * era + yoe / 100;
  }

  lemma Epoch()
    ensures ToDays(Date(1970, 1, 1)) == 0
  {}

  lemma LeapDaysStep(y: int)
    ensures LeapDays(y) == LeapDays(y - 1) + if IsLeap(y) then 1 else 0
  {
    QuotientStep(y);
    Divisors(y);
  }

  lemma Divisors(y: int)
    ensures y % 100 == 0 ==> y % 4 == 0
    ensures y % 400 == 0 ==> y % 100 == 0
  {
    Multiples4(y % 100, 25 * (y / 100));
    Multiples100(y % 400, 4 * (y / 400));
  }

  lemma QuotientStep(y: int)
    ensures y / 4 == (y - 1) / 4 + if y % 4 == 0 then 1 else 0
    ensures y / 100 == (y - 1) / 100 + if y % 100 == 0 then 1 else 0
    ensures y / 400 == (y - 1) / 400 + if y % 400 == 0 then 1 else 0
  {}

  /** In a year that starts in March, the months follow each other without gaps, and February is the last. */
  lemma MarchYearMonths(y: int, m: int)
    requires 1 <= m <= 12
    ensures m != 2 ==> DayOfMarchYear(m, LastDay(y, m)) + 1 == DayOfMarchYear(if m == 12 then 1 else m + 1, 1)
    ensures m == 2 ==> DayOfMarchYear(m, LastDay(y, m)) == if IsLeap(y) then 365 else 364
  {}

  /** From the last day of a month to the first of the next one. */
  lemma MonthEndStep(d: Date)
    requires 1 <= d.month <= 12 && d.day == LastDay(d.year, d.month)
    ensures ToDays(NextDay(d)) == ToDays(d) + 1
  {
    var next := NextDay(d);
    hide ToDays, IsLeap, LastDay, LeapDays;
    ToDaysIs(d);
    ToDaysIs(next);
    MarchYearMonths(d.year, d.month);
    LeapDaysStep(d.year);
    if d.month == 2 {
      assert next == Date(d.year, 3, 1) && DayOfMarchYear(3, 1) == 0;
    } else {
      hide DayOfMarchYear;
      assert MarchYear(next) == MarchYear(d);
    }
  }

  lemma SameMonthStep(d: Date)
    requires 1 <= d.month <= 12
    ensures ToDays(d.(day := d.day + 1)) == ToDays(d) + 1
  {}

  lemma NextDayProper(d: Date)
    requires Proper(d)
    ensures Proper(NextDay(d))
  {
    hide IsLeap;
  }

  /** The closed form counts the days of the calendar one by one. */
  lemma ToDaysCountsDays(d: Date)
    requires Proper(d)
    ensures Proper(NextDay(d)) && ToDays(NextDay(d)) == ToDays(d) + 1
  {
    NextDayProper(d);
    hide ToDays, IsLeap, LastDay;
    SameMonthStep(d);
    if d.day == LastDay(d.year, d.month) {
      MonthEndStep(d);
    }
  }

  // ----- from day numbers back to dates -----

  /** The number of days in the first `n` years of an era. */
  function DaysInYears(n: int): int {
    365 * n + n / 4 - n / 100
  }

  /** The position of a day in its era: century, four years, year, day. */
  predicate Splits(doe: int, c: int, q: int, j: int, k: int) {
    && doe == 36524 * c + 1461 * q + 365 * j + k
    && 0 <= c <= 3 && 0 <= q <= 24 && 0 <= j <= 3 && 0 <= k
    && k <= 364 + (if j == 3 then 1 else 0)
    && (q == 24 && j == 3 && c < 3 ==> k <= 364)
  }

  lemma YearsOfSplit(c: int, q: int, j: int)
    requires 0 <= c <= 3 && 0 <= q <= 24 && 0 <= j <= 3
    ensures DaysInYears(100 * c + 4 * q + j) == 36524 * c + 1461 * q + 365 * j
  {}

  lemma YearFromSplit(doe: int, c: int, q: int, j: int, k: int)
    requires Splits(doe, c, q, j, k)
    ensures (doe - doe / 1460 + doe / 36524 - doe / 146096) / 365 == 100 * c + 4 * q + j
  {
    var extra := 24 * c + q + 365 * j + k;
    var t := if extra >= 1460 then 1 else 0;
    assert doe == 1460 * (25 * c + q + t) + (extra - 1460 * t);
    assert doe / 1460 == 25 * c + q + t;
    assert doe / 36524 - doe / 146096 == c;
    assert doe - doe / 1460 + c == 365 * (100 * c + 4 * q + j) + (k - t);
  }

  lemma SplitEra(doe: int) returns (c: int, q: int, j: int, k: int)
    requires 0 <= doe <= 146096
    ensures Splits(doe, c, q, j, k)
  {
    c := Min(doe / 36524, 3);
    var inCentury := doe - 36524 * c;
    q := inCentury / 1461;
    var inFour := inCentury - 1461 * q;
    j := Min(inFour / 365, 3);
    k := inFour - 365 * j;
  }

  lemma MonthCase(doy: int, mp: int, y: int)
    requires 0 <= mp <= 11 && 0 <= doy <= 365 && 153 * mp <= 5 * doy + 2 < 153 * mp + 153
    ensures var m := if mp < 10 then mp + 3 else mp - 9; var d := doy - (153 * mp + 2) / 5 + 1;
      && 1 <= d && DayOfMarchYear(m, d) == doy
      && (m != 2 ==> d <= LastDay(y, m))
      && (m == 2 ==> d <= 29 && (d == 29 <==> doy == 365))
  {}

  /** Every day of a year starting in March has its date, and day 365 is a leap day. */
  lemma MarchYearDate(y: int, doy: int)
    requires 0 <= doy <= 365 && (doy == 365 ==> IsLeap(y + 1))
    ensures var date := DateOfMarchYear(y, doy);
      && Proper(date) && date.year == y + (if date.month <= 2 then 1 else 0)
      && DayOfMarchYear(date.month, date.day) == doy
  {
    hide IsLeap;
    MonthCase(doy, (5 * doy + 2) / 153, DateOfMarchYear(y, doy).year);
  }

  /** The closed form finds the year of the era and the day of that year. */
  lemma YearOfEra(doe: int) returns (yoe: int, doy: int)
    requires 0 <= doe <= 146096
    ensures yoe == (doe - doe / 1460 + doe / 36524 - doe / 146096) / 365
    ensures 0 <= yoe <= 399 && 0 <= doy <= 365 && doe == DaysInYears(yoe) + doy
    ensures doy == 365 ==> IsLeap(yoe + 1)
  {
    var c, q, j, k := SplitEra(doe);
    YearsOfSplit(c, q, j);
    YearFromSplit(doe, c, q, j, k);
    hide DaysInYears;
    yoe, doy := 100 * c + 4 * q + j, k;
    if k == 365 {
      assert (yoe + 1) == 4 * (25 * c + q + 1);
      assert yoe + 1 == 100 * c + 4 * (q + 1);
    }
  }

  lemma LeapInEveryEra(era: int, n: int)
    ensures IsLeap(400 * era + n) == IsLeap(n)
  {
    Multiples4(n, 100 * era);
    Multiples100(n, 4 * era);
    Multiples400(n, era);
  }

  lemma Multiples4(n: int, k: int)
    ensures (4 * k + n) % 4 == n % 4
  {}

  lemma Multiples100(n: int, k: int)
    ensures (100 * k + n) % 100 == n % 100
  {}

  lemma Multiples400(n: int, k: int)
    ensures (400 * k + n) % 400 == n % 400 && (400 * k + n) / 400 == k + n / 400
  {}

  lemma CivilParts(days: int) returns (era: int, yoe: int, doy: int)
    ensures CivilFromDays(days) == DateOfMarchYear(400 * era + yoe, doy)
    ensures 0 <= yoe <= 399 && 0 <= doy <= 365 && days == 146097 * era + DaysInYears(yoe) + doy - 719468
    ensures doy == 365 ==> IsLeap(400 * era + yoe + 1)
  {
    hide DateOfMarchYear, IsLeap, FloorDiv;
    var z := days + 719468;
    FloorDivIsFloor(z, 146097);
    era := FloorDiv(z, 146097);
    yoe, doy := YearOfEra(z - era * 146097);
    LeapInEveryEra(era, yoe + 1);
  }

  lemma ToDaysParts(date: Date, era: int, yoe: int)
    requires date.year - (if date.month <= 2 then 1 else 0) == 400 * era + yoe && 0 <= yoe <= 399
    ensures ToDays(date) == 146097 * era + DaysInYears(yoe) + DayOfMarchYear(date.month, date.day) - 719468
  {
    hide DayOfMarchYear, FloorDiv;
    FloorDivIsFloor(400 * era + yoe, 400);
    Multiples400(yoe, era);
    assert FloorDiv(400 * era + yoe, 400) == era && (400 * era + yoe) - era * 400 == yoe;
  }

  lemma PartsRoundTrip(date: Date, era: int, yoe: int, doy: int)
    requires 0 <= yoe <= 399 && 0 <= doy <= 365 && (doy == 365 ==> IsLeap(400 * era + yoe + 1))
    requires date == DateOfMarchYear(400 * era + yoe, doy)
    ensures Proper(date) && ToDays(date) == 146097 * era + DaysInYears(yoe) + doy - 719468
  {
    MarchYearDate(400 * era + yoe, doy);
    hide DateOfMarchYear, ToDays, DaysInYears, IsLeap, DayOfMarchYear, LastDay;
    ToDaysParts(date, era, yoe);
  }

  /** Every day number is the number of the date computed from it, and that date exists. */
  lemma CivilRoundTrip(days: int)
    ensures Proper(CivilFromDays(days)) && ToDays(CivilFromDays(days)) == days
  {
    hide *;
    var era, yoe, doy := CivilParts(days);
    PartsRoundTrip(CivilFromDays(days), era, yoe, doy);
  }

  // ----- the order of dates -----

  function MarchYear(d: Date): int {
    d.year - (if d.month <= 2 then 1 else 0)
  }

  lemma DayOfMarchYearRange(d: Date)
    requires Proper(d)
    ensures 0 <= DayOfMarchYear(d.month, d.day) <= 364 + if IsLeap(MarchYear(d) + 1) then 1 else 0
  {
    hide IsLeap;
  }

  lemma DayOfMarchYearOrder(a: Date, b: Date)
    requires Proper(a) && Proper(b) && Less(a, b) && MarchYear(a) == MarchYear(b)
    ensures DayOfMarchYear(a.month, a.day) < DayOfMarchYear(b.month, b.day)
  {
    hide IsLeap;
  }

  lemma LeapDaysOrder(y: int, later: int)
    requires y <= later
    ensures LeapDays(y) <= LeapDays(later)
    decreases later - y
  {
    if y < later {
      LeapDaysStep(later);
      LeapDaysOrder(y, later - 1);
    }
  }

  /** The days before the year that starts in March of year `y`. */
  function DaysBefore(y: int): int {
    365 * y + LeapDays(y) - 719468
  }

  lemma DaysBeforeOrder(y: int, later: int)
    requires y < later
    ensures DaysBefore(y) + 365 + (if IsLeap(y + 1) then 1 else 0) <= DaysBefore(later)
  {
    hide LeapDays, IsLeap;
    LeapDaysStep(y + 1);
    LeapDaysOrder(y + 1, later);
  }

  lemma ToDaysIs(d: Date)
    ensures ToDays(d) == DaysBefore(MarchYear(d)) + DayOfMarchYear(d.month, d.day)
  {
    ToDaysFormula(d);
  }

  /** Later dates have larger day numbers. */
  lemma ToDaysIncreases(a: Date, b: Date)
    requires Proper(a) && Proper(b) && Less(a, b)
    ensures ToDays(a) < ToDays(b)
  {
    assert MarchYear(a) <= MarchYear(b);
    hide ToDays, Proper, DaysBefore, DayOfMarchYear, MarchYear, Less, IsLeap;
    ToDaysIs(a);
    ToDaysIs(b);
    if MarchYear(a) == MarchYear(b) {
      DayOfMarchYearOrder(a, b);
    } else {
      DayOfMarchYearRange(a);
      DayOfMarchYearRange(b);
      DaysBeforeOrder(MarchYear(a), MarchYear(b));
    }
  }

  /** The order of dates is the order of their day numbers. */
  lemma OrderIsDayOrder(a: Date, b: Date)
    requires Proper(a) && Proper(b)
    ensures Less(a, b) <==> ToDays(a) < ToDays(b)
    ensures a == b <==> ToDays(a) == ToDays(b)
  {
    hide ToDays, Proper;
    if Less(a, b) {
      ToDaysIncreases(a, b);
    } else if Less(b, a) {
      ToDaysIncreases(b, a);
    }
  }

  // ----- the bijection -----

  const MIN_DAY := -12687428
  const MAX_DAY := 11248737

  lemma Limits()
    ensures ToDays(Date(-32767, 1, 1)) == MIN_DAY && ToDays(Date(32767, 12, 31)) == MAX_DAY
  {}

  lemma OkIsInRange(d: Date)
    requires Proper(d)
    ensures YearOk(d.year) <==> MIN_DAY <= ToDays(d) <= MAX_DAY
  {
    Limits();
    hide ToDays, IsLeap;
    OrderIsDayOrder(d, Date(-32767, 1, 1));
    OrderIsDayOrder(Date(32767, 12, 31), d);
  }

  /** Every date comes back from its day number, with its year as it is stored. */
  lemma StoredRoundTrip(d: Date)
    requires Proper(d)
    ensures FromDays(ToDays(d)) == d.(year := Year(d.year))
  {
    hide ToDays, CivilFromDays, Proper, Less;
    CivilRoundTrip(ToDays(d));
    OrderIsDayOrder(d, CivilFromDays(ToDays(d)));
  }

  /** Every valid date comes back from its day number. */
  lemma DateRoundTrip(d: Date)
    requires DateOk(d)
    ensures FromDays(ToDays(d)) == d
  {
    hide ToDays, FromDays, Proper;
    StoredRoundTrip(d);
  }

  /**
    A day number gives a valid date that leads back to it exactly when it lies between the first
    and the last day whose year fits: outside, the 16 bit year wraps around.
   */
  lemma DayRoundTrip(days: int)
    ensures DateOk(FromDays(days)) && ToDays(FromDays(days)) == days <==> MIN_DAY <= days <= MAX_DAY
  {
    hide ToDays, CivilFromDays, IsLeap, LastDay;
    CivilRoundTrip(days);
    OkIsInRange(CivilFromDays(days));
    if DateOk(FromDays(days)) && ToDays(FromDays(days)) == days {
      OkIsInRange(FromDays(days));
    }
  }

  /** Going up by one day number is going to the next day of the calendar. */
  lemma NextDayNumber(days: int)
    requires MIN_DAY <= days < MAX_DAY
    ensures FromDays(days + 1) == NextDay(FromDays(days))
  {
    hide ToDays, FromDays, IsLeap, LastDay, NextDay, Less;
    DayRoundTrip(days);
    DayRoundTrip(days + 1);
    var d := FromDays(days);
    ToDaysCountsDays(d);
    OrderIsDayOrder(NextDay(d), FromDays(days + 1));
  }

  /** The date `n` days after another, found by going through the calendar. */
  function DaysLater(d: Date, n: nat): Date {
    if n == 0 then d else NextDay(DaysLater(d, n - 1))
  }

  /** Day numbers count days: adding `n` leads to the date found by going `n` days ahead. */
  lemma {:induction false} DayNumbersCountDays(d: Date, n: nat)
    requires DateOk(d) && ToDays(d) + n <= MAX_DAY
    ensures FromDays(ToDays(d) + n) == DaysLater(d, n)
  {
    hide ToDays, FromDays, NextDay, LastDay;
    OkIsInRange(d);
    if n == 0 {
      DateRoundTrip(d);
    } else {
      DayNumbersCountDays(d, n - 1);
      NextDayNumber(ToDays(d) + n - 1);
    }
  }

  /** One day beyond the range: 32768-01-01 is stored with a year that is not valid. */
  lemma BeyondTheLastDay()
    ensures FromDays(MAX_DAY + 1) == Date(-32768, 1, 1) && !DateOk(FromDays(MAX_DAY + 1))
  {
    var next := Date(32768, 1, 1);
    assert ToDays(next) == MAX_DAY + 1;
    hide ToDays, CivilFromDays, Less;
    CivilRoundTrip(MAX_DAY + 1);
    OrderIsDayOrder(next, CivilFromDays(MAX_DAY + 1));
  }
}
