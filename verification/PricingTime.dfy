/** packages/case-lifecycle/pricing/time.ts: UTC date arithmetic on instants in milliseconds. */
module PricingTime {
  import opened CivilDates

  function DayAt(t: int): int {
    t / MS_DAY
  }

  /** The date `months` calendar months after `c`, its day clamped to the target month's length. */
  function MonthsLater(c: Civil, months: int): Civil {
    var index := c.m - 1 + months;
    var y, m := c.y + index / 12, index % 12 + 1;
    var last := MonthLength(m, Leap(UtcYear(y)));
    Civil(y, m, if c.d <= last then c.d else last)
  }

  /** `addMonthsUtc`: the clamped date, at the same time of day. */
  ghost function AddMonthsUtc(t: int, months: int): int {
    DayOf(MonthsLater(CivilOf(DayAt(t)), months)) * MS_DAY + t % MS_DAY
  }

  lemma SameDay(a: Civil, b: Civil)
    requires ValidCivil(a) && ValidCivil(b) && DayOf(a) == DayOf(b)
    ensures a == b
  {
    CivilBijection(a, b);
    CivilBijection(b, a);
  }

  lemma SearchFinds(c: Civil, n: int)
    requires ValidCivil(c) && DayOf(c) == n
    ensures SearchCivil(n) == c
  {
    SameDay(SearchCivil(n), c);
  }

  lemma FirstOfMonth(c: Civil, n: int)
    requires ValidCivil(c) && DayOf(c) == n
    ensures SearchCivil(n - (c.d - 1)) == Civil(c.y, c.m, 1)
  {
    SearchFinds(Civil(c.y, c.m, 1), n - (c.d - 1));
  }

  lemma MonthsOn(y: int, month0: int)
    ensures SearchCivil(MakeDay(y, month0, 1)) == Civil(y + month0 / 12, month0 % 12 + 1, 1)
  {
    SearchFinds(Civil(y + month0 / 12, month0 % 12 + 1, 1), MakeDay(y, month0, 1));
  }

  /** Day 0 of the next month is the last day of this one. */
  lemma LastOfMonth(y: int, m: int)
    requires 1 <= m <= 12
    ensures SearchCivil(MakeDay(y, m, 0)).d == MonthLength(m, Leap(y))
  {
    LastDayNumber(y, m);
    SearchFinds(Civil(y, m, MonthLength(m, Leap(y))), MakeDay(y, m, 0));
  }

  lemma LastDayNumber(y: int, m: int)
    requires 1 <= m <= 12
    ensures MakeDay(y, m, 0) == DayOf(Civil(y, m, MonthLength(m, Leap(y))))
  {
    if m == 12 {
      YearSteps(y);
      TwelveMonths(Leap(y));
    }
  }

  /** Set the day to 1, then move the month: the first of the target month. */
  method FirstOfTarget(start: Civil, n: int, months: int) returns (target: Civil)
    requires ValidCivil(start) && DayOf(start) == n
    ensures target == Civil(start.y + (start.m - 1 + months) / 12, (start.m - 1 + months) % 12 + 1, 1)
  {
    var first := SearchCivil(n - (start.d - 1));
    FirstOfMonth(start, n);
    var month0 := first.m - 1 + months;
    MonthsOn(first.y, month0);
    target := SearchCivil(MakeDay(first.y, month0, 1));
  }

  /** Set the day of the month, clamped to its last day. */
  method ClampDay(y: int, m: int, d: int) returns (day: int)
    requires 1 <= m <= 12
    ensures var last := MonthLength(m, Leap(UtcYear(y))); day == DayOf(Civil(y, m, if d <= last then d else last))
  {
    var lastDay := SearchCivil(MakeDay(UtcYear(y), m, 0)).d;
    LastOfMonth(UtcYear(y), m);
    day := MakeDay(y, m - 1, if d <= lastDay then d else lastDay);
    MakeDayOfValid(Civil(y, m, if d <= lastDay then d else lastDay));
  }

  lemma StartDate(n: int)
    ensures SearchCivil(n) == CivilOf(n)
  {
    SameDay(SearchCivil(n), CivilOf(n));
  }

  /** `addMonthsUtc`, as the Date is set step by step; the time of day rides along. */
  method AddMonths(t: int, months: int) returns (r: int)
    ensures r == AddMonthsUtc(t, months)
  {
    var start := SearchCivil(DayAt(t));
    var target := FirstOfTarget(start, DayAt(t), months);
    var day := ClampDay(target.y, target.m, start.d);
    StartDate(DayAt(t));
    r := day * MS_DAY + t % MS_DAY;
  }

  lemma MonthShift(m: int, a: bool, b: bool)
    requires 1 <= m <= 13
    ensures MonthStart(m, b) - MonthStart(m, a) == if m <= 2 || a == b then 0 else if b then 1 else -1
  {
    MonthStarts(a);
    MonthStarts(b);
    TwelveMonths(a);
    TwelveMonths(b);
  }

  lemma YearLaterDays(c: Civil)
    requires ValidCivil(c)
    ensures DayOf(c) + 365 <= DayOf(MonthsLater(c, 12)) <= DayOf(c) + 366
  {
    var index := c.m - 1 + 12;
    assert index / 12 == 1 && index % 12 == c.m - 1;
    YearSteps(c.y);
    MonthShift(c.m, Leap(c.y), Leap(c.y + 1));
    LeapAlternates(c.y);
    UtcYearLeaps(c.y + 1);
  }

  lemma LeapAlternates(y: int)
    ensures !(Leap(y) && Leap(y + 1))
  {
  }

  /** Reading the years 0 to 99 as 1900 to 1999 changes only whether year 0 is a leap year. */
  lemma UtcYearLeaps(y: int)
    ensures y != 0 ==> (Leap(UtcYear(y)) <==> Leap(y))
    ensures y == 0 ==> Leap(y) && !Leap(y - 1)
  {
  }

  /** Twelve months on is strictly later, by 365 or 366 days. */
  lemma YearLater(t: int)
    ensures t + 365 * MS_DAY <= AddMonthsUtc(t, 12) <= t + 366 * MS_DAY
  {
    var n := DayAt(t);
    YearLaterDays(CivilOf(n));
    var later := DayOf(MonthsLater(CivilOf(n), 12));
    assert t == n * MS_DAY + t % MS_DAY;
    assert later * MS_DAY - n * MS_DAY == (later - n) * MS_DAY;
  }
}
